/** Capacity: resuming after NOMEM, the exact number of tokens needed, and the counting mode. */
module JsmnSizing {
  import opened Jsmn

  /** A larger array changes a step only by turning NOMEM into progress. */
  lemma StepWithMoreRoom(js: string, cap: nat, big: nat, st: State)
    requires !AtEnd(js, st.pos)
    requires cap <= big
    ensures Step(js, cap, st) != Stop(NoMem) ==> Step(js, big, st) == Step(js, cap, st)
    ensures Step(js, cap, st) == Stop(NoMem) ==> |st.toks| >= cap
    ensures |st.toks| < cap ==> Step(js, cap, st) != Stop(NoMem)
    ensures Step(js, cap, st) == Stop(NoMem) && |st.toks| < big ==>
      Step(js, big, st).Next? && Step(js, big, st).made == 1
    ensures |st.toks| <= cap && Step(js, big, st).Next? && |st.toks| + Step(js, big, st).made > cap
        ==> Step(js, cap, st) == Stop(NoMem)
  {
  }

  /** The value returned is the number of tokens this call allocated. */
  lemma {:induction false} CountsItsTokens(js: string, cap: nat, st: State, count: nat)
    ensures Run(js, cap, st, count).0.Done? ==>
              Run(js, cap, st, count).0.count == count + |Run(js, cap, st, count).1.toks| - |st.toks|
    decreases |js| - st.pos
  {
    hide Step, CountStep;
    if !AtEnd(js, st.pos) {
      match Step(js, cap, st)
      case Stop(_) =>
      case Next(st', made) => CountsItsTokens(js, cap, st', count + made);
    }
  }

  /** The starting count only shifts the value returned. */
  lemma {:induction false} CountShifts(js: string, cap: nat, st: State, c: nat, d: nat)
    ensures Run(js, cap, st, c).1 == Run(js, cap, st, d).1
    ensures match Run(js, cap, st, c).0
            case Done(n) => Run(js, cap, st, d).0.Done? && n - c == Run(js, cap, st, d).0.count - d
            case Fail(e) => Run(js, cap, st, d).0 == Fail(e)
    decreases |js| - st.pos
  {
    hide Step, CountStep;
    if !AtEnd(js, st.pos) {
      match Step(js, cap, st)
      case Stop(_) =>
      case Next(st', made) => CountShifts(js, cap, st', c + made, d + made);
    }
  }

  /** After NOMEM, calling again with a larger array that holds the same tokens ends in the state,
      and with the error, that one call with the larger array gives; the value returned on success
      counts the tokens of the second call only. */
  lemma {:induction false} Resume(js: string, cap: nat, big: nat, st: State, count: nat)
    requires cap <= big && Run(js, cap, st, count).0 == Fail(NoMem)
    ensures var mid := Run(js, cap, st, count).1;
            var once, twice := Run(js, big, st, count), Run(js, big, mid, 0);
            && |mid.toks| >= cap
            && twice.1 == once.1
            && (once.0.Fail? ==> twice.0 == once.0)
            && (once.0.Done? ==> twice.0 == Done(|once.1.toks| - |mid.toks|))
    decreases |js| - st.pos
  {
    hide Step, CountStep;
    if !AtEnd(js, st.pos) {
      StepWithMoreRoom(js, cap, big, st);
      match Step(js, cap, st)
      case Stop(_) =>
        assert Run(js, cap, st, count).1 == st;
        CountShifts(js, big, st, count, 0);
        CountsItsTokens(js, big, st, 0);
      case Next(st', made) =>
        assert Run(js, cap, st, count) == Run(js, cap, st', count + made);
        assert Run(js, big, st, count) == Run(js, big, st', count + made);
        Resume(js, cap, big, st', count + made);
    }
  }

  /** The capacity needed is exactly the number of tokens of a run with room to spare: with that
      many, nothing changes; with fewer, NOMEM, and the array is full. */
  lemma {:induction false} CapacityIsExact(js: string, cap: nat, big: nat, st: State, count: nat)
    requires |st.toks| <= cap <= big
    ensures var all := Run(js, big, st, count);
            if |all.1.toks| <= cap
            then cap < big ==> Run(js, cap, st, count) == all
            else Run(js, cap, st, count).0 == Fail(NoMem) && |Run(js, cap, st, count).1.toks| == cap
    decreases |js| - st.pos
  {
    hide Step, CountStep;
    if !AtEnd(js, st.pos) {
      StepWithMoreRoom(js, cap, big, st);
      match Step(js, big, st)
      case Stop(_) =>
      case Next(st', made) =>
        if |st.toks| + made <= cap {
          CapacityIsExact(js, cap, big, st', count + made);
        }
    }
  }

  lemma StepMatchesCount(js: string, cap: nat, st: State)
    requires !AtEnd(js, st.pos)
    ensures var o, t := Step(js, cap, st), CountStep(js, st.pos);
            && (o.Next? ==> t == Go(o.st.pos, o.made))
            && (o == Stop(NoMem) ==> t.Go? && t.made == 1 && |st.toks| >= cap)
            && (t.Halt? ==> o == Stop(t.error))
  {
  }

  /** The counting run and a run with an array read the same text in lockstep. */
  lemma {:induction false} CountingAgrees(js: string, cap: nat, st: State, count: nat)
    ensures var r, c := Run(js, cap, st, count), CountRun(js, st.pos, count);
            && (r.0.Done? ==> c == (r.0, r.1.pos))
            && (c.0.Done? && |st.toks| + c.0.count - count <= cap ==> r.0 != Fail(NoMem))
            && (c.0.Fail? ==> r.0.Fail?)
    decreases |js| - st.pos
  {
    hide Step, CountStep;
    if !AtEnd(js, st.pos) {
      StepMatchesCount(js, cap, st);
      match Step(js, cap, st)
      case Stop(_) =>
      case Next(st', made) => CountingAgrees(js, cap, st', count + made);
    }
  }

  /** Sizing by counting first: an array of the returned size is never too small, and every
      successful run returns that number. */
  lemma CountFirst(js: string, c: nat)
    requires CountRun(js, 0, 0).0 == Done(c)
    ensures Run(js, c, INITIAL, 0).0 != Fail(NoMem)
    ensures forall cap: nat :: Run(js, cap, INITIAL, 0).0.Done? ==> Run(js, cap, INITIAL, 0).0 == Done(c) && c <= cap
  {
    CountingAgrees(js, c, INITIAL, 0);
    forall cap: nat | Run(js, cap, INITIAL, 0).0.Done?
      ensures Run(js, cap, INITIAL, 0).0 == Done(c) && c <= cap
    {
      CountingAgrees(js, cap, INITIAL, 0);
      CountsItsTokens(js, cap, INITIAL, 0);
    }
  }
}
