/** What a server's configuration sets, in terms of the names in its text. */
module ConfigKeys {
  import opened Options
  import opened Jsmn
  import opened JsmnRefusal
  import opened JsmnSizing
  import opened JsmnRoundTrip
  import opened Sanitiser
  import opened ConfigServer

  // ---------- Decimal numbers ----------

  function Decimal(n: nat): (s: string)
    ensures s != ""
  {
    var digit := "0123456789"[n % 10];
    if n < 10 then [digit] else Decimal(n / 10) + [digit]
  }

  predicate DecimalDigit(c: char) {
    '0' <= c <= '9'
  }

  lemma DigitIs(n: nat)
    requires n < 10
    ensures "0123456789"[n] as int == 48 + n
  {
    var d := "0123456789";
    assert d[0] == '0' && d[1] == '1' && d[2] == '2' && d[3] == '3' && d[4] == '4' && d[5] == '5' && d[6] == '6'
        && d[7] == '7' && d[8] == '8' && d[9] == '9';
  }

  function Power10(n: nat): (r: nat)
    ensures r > 0
  {
    if n == 0 then 1 else 10 * Power10(n - 1)
  }

  lemma {:induction false} DigitsRead(n: nat, rest: string, acc: nat)
    ensures Digits10(Decimal(n) + rest, acc) == Digits10(rest, acc * Power10(|Decimal(n)|) + n)
    decreases n
  {
    DigitRead(n % 10, rest);
    DecimalOnce(n);
    hide Digits10, Decimal, Power10;
    var digit := ["0123456789"[n % 10]];
    if n >= 10 {
      var d := Decimal(n / 10);
      assert Decimal(n) + rest == d + (digit + rest);
      DigitsRead(n / 10, digit + rest, acc);
      Shifted(acc, |d|, n);
    } else {
      OneDigit(acc);
    }
  }

  lemma DecimalOnce(n: nat)
    ensures Decimal(n) == (if n < 10 then "" else Decimal(n / 10)) + ["0123456789"[n % 10]]
  {
  }

  lemma OneDigit(acc: nat)
    ensures acc * Power10(1) == 10 * acc
  {
    assert Power10(1) == 10;
  }

  lemma DigitRead(n: nat, rest: string)
    requires n < 10
    ensures forall acc: nat :: Digits10(["0123456789"[n]] + rest, acc) == Digits10(rest, 10 * acc + n)
  {
    DigitIs(n);
    assert (["0123456789"[n]] + rest)[1..] == rest;
  }

  lemma Shifted(acc: nat, k: nat, n: nat)
    ensures 10 * (acc * Power10(k) + n / 10) + n % 10 == acc * Power10(k + 1) + n
  {
    var p := Power10(k);
    assert acc * (10 * p) == 10 * (acc * p);
  }

  predicate Blanks(w: string) {
    forall k :: 0 <= k < |w| ==> w[k] in " \t\n\U{B}\U{C}\r"
  }

  lemma BlankIs(c: char)
    ensures c in " \t\n\U{B}\U{C}\r" <==> c == ' ' || '\t' <= c <= '\r'
  {
    var b := " \t\n\U{B}\U{C}\r";
    assert b[0] == ' ' && b[1] == '\t' && b[2] == '\n' && b[3] == '\U{B}' && b[4] == '\U{C}' && b[5] == '\r';
  }

  lemma {:induction false} BlanksSkipped(w: string, s: string)
    requires Blanks(w)
    ensures Atoi(w + s) == Atoi(s)
    decreases |w|
  {
    if w == "" {
      assert w + s == s;
    } else {
      BlankIs(w[0]);
      assert (w + s)[1..] == w[1..] + s;
      BlanksSkipped(w[1..], s);
    }
  }

  /** Main result: a number printed in decimal, with or without a sign, blanks before it or text that is no
      digit behind it, is read back. */
  lemma DecimalRead(w: string, sign: string, n: nat, rest: string)
    requires Blanks(w) && sign in {"", "+", "-"} && (rest == "" || !DecimalDigit(rest[0]))
    ensures Atoi(w + (sign + (Decimal(n) + rest))) == (if sign == "-" then -1 else 1) * n
  {
    var d := Decimal(n) + rest;
    BlanksSkipped(w, sign + d);
    FirstDigit(n);
    DigitsRead(n, rest, 0);
    assert Digits10(rest, n) == n;
    hide Decimal, Digits10, Blanks;
    assert 0 * Power10(|Decimal(n)|) == 0;
    SignRead(sign, d, n);
  }

  lemma SignRead(sign: string, d: string, n: nat)
    requires sign in {"", "+", "-"} && d != "" && '0' <= d[0] <= '9' && Digits10(d, 0) == n
    ensures Atoi(sign + d) == (if sign == "-" then -1 else 1) * n
  {
    hide Digits10;
    if sign == "" {
      assert sign + d == d;
    } else {
      assert (sign + d)[1..] == d;
    }
  }

  lemma {:induction false} FirstDigit(n: nat)
    ensures '0' <= Decimal(n)[0] <= '9'
  {
    DigitIs(n % 10);
    if n >= 10 {
      FirstDigit(n / 10);
    }
  }

  /** A text without a digit in that place is read as zero. */
  lemma NoNumberRead(w: string, sign: string, rest: string)
    requires Blanks(w) && sign in {"", "+", "-"} && (rest == "" || !DecimalDigit(rest[0]))
    requires sign == "" ==> rest == "" || rest[0] !in " \t\n\U{B}\U{C}\r+-"
    ensures Atoi(w + (sign + rest)) == 0
  {
    BlanksSkipped(w, sign + rest);
    if rest != "" {
      BlankIs(rest[0]);
      if sign == "" {
        var b := " \t\n\U{B}\U{C}\r+-";
        assert b[6] == '+' && b[7] == '-' && forall k :: 0 <= k < 6 ==> b[k] == " \t\n\U{B}\U{C}\r"[k];
      }
    }
    assert sign == "" ==> sign + rest == rest;
    assert sign != "" ==> (sign + rest)[1..] == rest;
  }

  // ---------- Names ----------

  const TEXT_NAMES := ["authPath", "configPath", "netTrafficPath", "gatewayName", "redirectURL"]
  const NUMBER_NAMES :=
    ["maxClients", "clientIdleTimeout", "clientForceTimeout", "trafficControl", "downloadLimit", "uploadLimit"]
  const LIST_NAMES := ["freeIPList", "freeDomainList", "blockedMACList", "trustedMACList"]

  /** A member the program understands: a scalar under the name of a text or a number, an array of scalars
      under that of a list; numbers and elements have fewer than 32 characters, domains fewer than 128. */
  predicate Understood(key: string, value: Value) {
    if key in LIST_NAMES then
      && value.Arr? && ScalarItems(value.items)
      && AllShorter(ItemTexts(value.items), if key == "freeDomainList" then 128 else 32)
    else
      && (key in TEXT_NAMES || key in NUMBER_NAMES) && Scalar(value)
      && (key in NUMBER_NAMES ==> |ValueText(value)| < 32)
  }

  predicate AllUnderstood(m: Members) {
    m.NoMembers? || (Understood(m.key, m.value) && AllUnderstood(m.rest))
  }

  /** A member that stops the program: its name is none of the fifteen, or a list's without an array. */
  predicate NotUnderstood(key: string, value: Value) {
    key !in TEXT_NAMES && key !in NUMBER_NAMES && (key in LIST_NAMES ==> !value.Arr?)
  }

  lemma TextNames(key: string)
    ensures KeyNamed(key) == TextKey(AuthPath) <==> key == "authPath"
    ensures KeyNamed(key) == TextKey(ConfigPath) <==> key == "configPath"
    ensures KeyNamed(key) == TextKey(NetTrafficPath) <==> key == "netTrafficPath"
    ensures KeyNamed(key) == TextKey(GatewayName) <==> key == "gatewayName"
    ensures KeyNamed(key) == TextKey(RedirectURL) <==> key == "redirectURL"
  {
  }

  lemma NumberNames(key: string)
    ensures KeyNamed(key) == NumberKey(MaxClients) <==> key == "maxClients"
    ensures KeyNamed(key) == NumberKey(ClientTimeout) <==> key == "clientIdleTimeout"
    ensures KeyNamed(key) == NumberKey(ClientForceOut) <==> key == "clientForceTimeout"
    ensures KeyNamed(key) == NumberKey(TrafficControl) <==> key == "trafficControl"
    ensures KeyNamed(key) == NumberKey(DownloadLimit) <==> key == "downloadLimit"
    ensures KeyNamed(key) == NumberKey(UploadLimit) <==> key == "uploadLimit"
  {
  }

  lemma ListNames(key: string)
    ensures KeyNamed(key) == ListKey(FreeIPs) <==> key == "freeIPList"
    ensures KeyNamed(key) == ListKey(FreeDomains) <==> key == "freeDomainList"
    ensures KeyNamed(key) == ListKey(BlockedMACs) <==> key == "blockedMACList"
    ensures KeyNamed(key) == ListKey(TrustedMACs) <==> key == "trustedMACList"
  {
    FreeNames(key);
    MacNames(key);
    hide KeyNamed;
  }

  lemma FreeNames(key: string)
    ensures KeyNamed(key) == ListKey(FreeIPs) <==> key == "freeIPList"
    ensures KeyNamed(key) == ListKey(FreeDomains) <==> key == "freeDomainList"
  {
  }

  lemma MacNames(key: string)
    ensures KeyNamed(key) == ListKey(BlockedMACs) <==> key == "blockedMACList"
    ensures KeyNamed(key) == ListKey(TrustedMACs) <==> key == "trustedMACList"
  {
  }

  /** `name`, and no other, is the name of that key. */
  ghost predicate IsName(name: string, k: Key) {
    forall key :: KeyNamed(key) == k <==> key == name
  }

  lemma FifteenNames()
    ensures IsName("authPath", TextKey(AuthPath))
    ensures IsName("configPath", TextKey(ConfigPath))
    ensures IsName("netTrafficPath", TextKey(NetTrafficPath))
    ensures IsName("gatewayName", TextKey(GatewayName))
    ensures IsName("redirectURL", TextKey(RedirectURL))
    ensures IsName("maxClients", NumberKey(MaxClients))
    ensures IsName("clientIdleTimeout", NumberKey(ClientTimeout))
    ensures IsName("clientForceTimeout", NumberKey(ClientForceOut))
    ensures IsName("trafficControl", NumberKey(TrafficControl))
    ensures IsName("downloadLimit", NumberKey(DownloadLimit))
    ensures IsName("uploadLimit", NumberKey(UploadLimit))
    ensures IsName("freeIPList", ListKey(FreeIPs))
    ensures IsName("freeDomainList", ListKey(FreeDomains))
    ensures IsName("blockedMACList", ListKey(BlockedMACs))
    ensures IsName("trustedMACList", ListKey(TrustedMACs))
  {
    forall key
      ensures KeyNamed(key) == TextKey(AuthPath) <==> key == "authPath"
      ensures KeyNamed(key) == TextKey(ConfigPath) <==> key == "configPath"
      ensures KeyNamed(key) == TextKey(NetTrafficPath) <==> key == "netTrafficPath"
      ensures KeyNamed(key) == TextKey(GatewayName) <==> key == "gatewayName"
      ensures KeyNamed(key) == TextKey(RedirectURL) <==> key == "redirectURL"
    {
      TextNames(key);
    }
    forall key
      ensures KeyNamed(key) == NumberKey(MaxClients) <==> key == "maxClients"
      ensures KeyNamed(key) == NumberKey(ClientTimeout) <==> key == "clientIdleTimeout"
      ensures KeyNamed(key) == NumberKey(ClientForceOut) <==> key == "clientForceTimeout"
      ensures KeyNamed(key) == NumberKey(TrafficControl) <==> key == "trafficControl"
      ensures KeyNamed(key) == NumberKey(DownloadLimit) <==> key == "downloadLimit"
      ensures KeyNamed(key) == NumberKey(UploadLimit) <==> key == "uploadLimit"
    {
      NumberNames(key);
    }
    forall key
      ensures KeyNamed(key) == ListKey(FreeIPs) <==> key == "freeIPList"
      ensures KeyNamed(key) == ListKey(FreeDomains) <==> key == "freeDomainList"
      ensures KeyNamed(key) == ListKey(BlockedMACs) <==> key == "blockedMACList"
      ensures KeyNamed(key) == ListKey(TrustedMACs) <==> key == "trustedMACList"
    {
      ListNames(key);
    }
    hide KeyNamed;
  }

  /** The names sort the keys into kinds. */
  lemma KindOfKey(key: string)
    ensures KeyNamed(key).TextKey? <==> key in TEXT_NAMES
    ensures KeyNamed(key).NumberKey? <==> key in NUMBER_NAMES
    ensures KeyNamed(key).ListKey? <==> key in LIST_NAMES
  {
    TextNames(key);
    NumberNames(key);
    ListNames(key);
    InTexts(key);
    InNumbers(key);
    InLists(key);
    hide *;
    match KeyNamed(key)
    case TextKey(f) => match f { case AuthPath => case ConfigPath => case NetTrafficPath => case GatewayName =>
                                 case RedirectURL => }
    case NumberKey(f) => match f { case MaxClients => case ClientTimeout => case ClientForceOut =>
                                   case TrafficControl => case DownloadLimit => case UploadLimit => }
    case ListKey(f) => match f { case FreeIPs => case FreeDomains => case BlockedMACs => case TrustedMACs => }
    case UnknownKey =>
  }

  lemma InTexts(key: string)
    ensures key in TEXT_NAMES <==>
      || key == "authPath" || key == "configPath" || key == "netTrafficPath" || key == "gatewayName"
      || key == "redirectURL"
  {
    var s := TEXT_NAMES;
    assert s[0] == "authPath" && s[1] == "configPath" && s[2] == "netTrafficPath" && s[3] == "gatewayName"
        && s[4] == "redirectURL";
  }

  lemma InNumbers(key: string)
    ensures key in NUMBER_NAMES <==>
      || key == "maxClients" || key == "clientIdleTimeout" || key == "clientForceTimeout"
      || key == "trafficControl" || key == "downloadLimit" || key == "uploadLimit"
  {
    var s := NUMBER_NAMES;
    assert s[0] == "maxClients" && s[1] == "clientIdleTimeout" && s[2] == "clientForceTimeout"
        && s[3] == "trafficControl" && s[4] == "downloadLimit" && s[5] == "uploadLimit";
  }

  lemma InLists(key: string)
    ensures key in LIST_NAMES <==>
      key == "freeIPList" || key == "freeDomainList" || key == "blockedMACList" || key == "trustedMACList"
  {
    var s := LIST_NAMES;
    assert s[0] == "freeIPList" && s[1] == "freeDomainList" && s[2] == "blockedMACList" && s[3] == "trustedMACList";
  }

  // ---------- What an object sets ----------

  /** The text of the last member of a name. */
  function LastText(m: Members, name: string): (t: Option<string>) {
    if m.NoMembers? then None
    else
      var later := LastText(m.rest, name);
      if later.Some? then later else if m.key == name then Some(ValueText(m.value)) else None
  }

  /** The elements of all members of a name, in order. */
  function AllElements(m: Members, name: string): (s: seq<string>) {
    if m.NoMembers? then []
    else (if m.key == name && m.value.Arr? then ItemTexts(m.value.items) else []) + AllElements(m.rest, name)
  }

  /** The field holds the text of the last member of that name, or what it held before. */
  predicate TextSet(c: Config, d: Config, f: TextField, m: Members, name: string) {
    var t := LastText(m, name);
    if t.Some? then f in d.texts && d.texts[f] == t.value
    else (f in d.texts <==> f in c.texts) && (f in c.texts ==> d.texts[f] == c.texts[f])
  }

  /** The field holds the number that the text of the last member of that name begins with, or what it held
      before. */
  ghost predicate NumberSet(c: Config, d: Config, f: NumberField, m: Members, name: string) {
    var t := LastText(m, name);
    if t.Some? then f in d.numbers && Says(t.value, d.numbers[f])
    else (f in d.numbers <==> f in c.numbers) && (f in c.numbers ==> d.numbers[f] == c.numbers[f])
  }

  /** Wherever the text is blanks, a sign, a number in decimal and something that is no digit, `x` is that
      number. */
  ghost predicate Says(text: string, x: int) {
    forall w, sign, n: nat, rest |
      && text == w + (sign + (Decimal(n) + rest))
      && Blanks(w) && sign in {"", "+", "-"} && (rest == "" || !DecimalDigit(rest[0])) ::
      x == (if sign == "-" then -1 else 1) * n
  }

  /** The list has the elements of all members of that name behind those it had. */
  predicate ListSet(c: Config, d: Config, f: ListField, m: Members, name: string) {
    Listed(d, f) == Listed(c, f) + AllElements(m, name)
  }

  predicate TextsSet(c: Config, d: Config, m: Members) {
    && TextSet(c, d, AuthPath, m, "authPath")
    && TextSet(c, d, ConfigPath, m, "configPath")
    && TextSet(c, d, NetTrafficPath, m, "netTrafficPath")
    && TextSet(c, d, GatewayName, m, "gatewayName")
    && TextSet(c, d, RedirectURL, m, "redirectURL")
  }

  ghost predicate NumbersSet(c: Config, d: Config, m: Members) {
    && NumberSet(c, d, MaxClients, m, "maxClients")
    && NumberSet(c, d, ClientTimeout, m, "clientIdleTimeout")
    && NumberSet(c, d, ClientForceOut, m, "clientForceTimeout")
    && NumberSet(c, d, TrafficControl, m, "trafficControl")
    && NumberSet(c, d, DownloadLimit, m, "downloadLimit")
    && NumberSet(c, d, UploadLimit, m, "uploadLimit")
  }

  predicate ListsSet(c: Config, d: Config, m: Members) {
    && ListSet(c, d, FreeIPs, m, "freeIPList")
    && ListSet(c, d, FreeDomains, m, "freeDomainList")
    && ListSet(c, d, BlockedMACs, m, "blockedMACList")
    && ListSet(c, d, TrustedMACs, m, "trustedMACList")
  }

  /** Each of the fifteen names sets its own field and no other. */
  ghost predicate FieldsSet(c: Config, d: Config, m: Members) {
    TextsSet(c, d, m) && NumbersSet(c, d, m) && ListsSet(c, d, m)
  }

  lemma UnderstoodIs(key: string, value: Value)
    requires Understood(key, value)
    ensures !Stops(key, value) && FlatMember(key, value)
    ensures AllShorter(MemberCopies(key, value), Clear(KeyNamed(key)))
  {
    KindOfKey(key);
    ListNames(key);
    hide KeyNamed, ItemTexts, ValueText;
    if KeyNamed(key).NumberKey? {
      OneShorter(ValueText(value), 32);
    }
  }

  lemma {:induction false} AllUnderstoodIs(m: Members)
    requires AllUnderstood(m)
    ensures Flat(m) && FlatUntil(m) && CopiesCleared(m)
    ensures forall c :: MeantFold(m, c).Loaded?
    decreases m
  {
    if m.Member? {
      UnderstoodIs(m.key, m.value);
      AllUnderstoodIs(m.rest);
      hide Stops, FlatMember, Understood, AllShorter, MemberCopies, Clear;
      forall c ensures MeantFold(m, c).Loaded? {
        UnderstoodMeant(m.key, m.value, c);
      }
    }
  }

  lemma UnderstoodMeant(key: string, value: Value, c: Config)
    requires Understood(key, value)
    ensures Meant(key, value, c).Loaded?
  {
    KindOfKey(key);
    hide KeyNamed, ItemTexts, ValueText;
  }

  lemma {:induction false} TextFolded(m: Members, c: Config, f: TextField, name: string)
    requires AllUnderstood(m) && MeantFold(m, c).Loaded?
    requires IsName(name, TextKey(f))
    ensures TextSet(c, MeantFold(m, c).config, f, m, name)
    decreases m
  {
    if m.Member? {
      UnderstoodMeant(m.key, m.value, c);
      var o := Meant(m.key, m.value, c);
      TextFolded(m.rest, o.config, f, name);
      assert KeyNamed(m.key) == TextKey(f) <==> m.key == name;
      hide KeyNamed, Understood, ItemTexts, ValueText, LastText;
    }
  }

  lemma AtoiSays(text: string)
    ensures Says(text, Atoi(text))
  {
    forall w, sign, n: nat, rest |
      && text == w + (sign + (Decimal(n) + rest))
      && Blanks(w) && sign in {"", "+", "-"} && (rest == "" || !DecimalDigit(rest[0]))
      ensures Atoi(text) == (if sign == "-" then -1 else 1) * n
    {
      DecimalRead(w, sign, n, rest);
    }
  }

  lemma {:induction false} NumberFolded(m: Members, c: Config, f: NumberField, name: string)
    requires AllUnderstood(m) && MeantFold(m, c).Loaded?
    requires IsName(name, NumberKey(f))
    ensures NumberSet(c, MeantFold(m, c).config, f, m, name)
    decreases m
  {
    if m.Member? {
      UnderstoodMeant(m.key, m.value, c);
      AtoiSays(ValueText(m.value));
      var o := Meant(m.key, m.value, c);
      NumberFolded(m.rest, o.config, f, name);
      assert KeyNamed(m.key) == NumberKey(f) <==> m.key == name;
      hide KeyNamed, Understood, ItemTexts, ValueText, LastText, Says, Atoi;
    }
  }

  lemma {:induction false} ListFolded(m: Members, c: Config, f: ListField, name: string)
    requires AllUnderstood(m) && MeantFold(m, c).Loaded?
    requires IsName(name, ListKey(f))
    ensures ListSet(c, MeantFold(m, c).config, f, m, name)
    decreases m
  {
    if m.Member? {
      UnderstoodMeant(m.key, m.value, c);
      hide KeyNamed, Understood, ItemTexts, ValueText, Meant, IsName, Listed;
      var o := Meant(m.key, m.value, c);
      ListFolded(m.rest, o.config, f, name);
      ListGrows(m, c, o.config, MeantFold(m, c).config, f, name);
    } else {
      assert Listed(c, f) + [] == Listed(c, f);
    }
  }

  lemma ListGrows(m: Members, c: Config, c': Config, d: Config, f: ListField, name: string)
    requires m.Member? && Meant(m.key, m.value, c) == Loaded(c') && IsName(name, ListKey(f))
    requires ListSet(c', d, f, m.rest, name)
    ensures ListSet(c, d, f, m, name)
  {
    ElementsListed(m.key, m.value, c, f, name);
    hide KeyNamed, ItemTexts, ValueText, Meant, IsName, Listed;
    var here := if m.key == name && m.value.Arr? then ItemTexts(m.value.items) else [];
    var more := AllElements(m.rest, name);
    assert AllElements(m, name) == here + more;
    hide AllElements;
    Joined(Listed(c, f), here, more);
  }

  lemma Joined(a: seq<string>, b: seq<string>, c: seq<string>)
    ensures a + b + c == a + (b + c)
  {
  }

  lemma ElementsListed(key: string, value: Value, c: Config, f: ListField, name: string)
    requires Meant(key, value, c).Loaded?
    requires IsName(name, ListKey(f))
    ensures Listed(Meant(key, value, c).config, f) ==
            Listed(c, f) + (if key == name && value.Arr? then ItemTexts(value.items) else [])
  {
    hide KeyNamed, ItemTexts, ValueText;
  }

  lemma TextsFolded(m: Members, c: Config)
    requires AllUnderstood(m) && MeantFold(m, c).Loaded?
    ensures TextsSet(c, MeantFold(m, c).config, m)
  {
    FifteenNames();
    hide IsName, AllUnderstood, MeantFold, TextSet;
    TextFolded(m, c, AuthPath, "authPath");
    TextFolded(m, c, ConfigPath, "configPath");
    TextFolded(m, c, NetTrafficPath, "netTrafficPath");
    TextFolded(m, c, GatewayName, "gatewayName");
    TextFolded(m, c, RedirectURL, "redirectURL");
  }

  lemma NumbersFolded(m: Members, c: Config)
    requires AllUnderstood(m) && MeantFold(m, c).Loaded?
    ensures NumbersSet(c, MeantFold(m, c).config, m)
  {
    FifteenNames();
    hide IsName, AllUnderstood, MeantFold, NumberSet;
    NumberFolded(m, c, MaxClients, "maxClients");
    NumberFolded(m, c, ClientTimeout, "clientIdleTimeout");
    NumberFolded(m, c, ClientForceOut, "clientForceTimeout");
    NumberFolded(m, c, TrafficControl, "trafficControl");
    NumberFolded(m, c, DownloadLimit, "downloadLimit");
    NumberFolded(m, c, UploadLimit, "uploadLimit");
  }

  lemma ListsFolded(m: Members, c: Config)
    requires AllUnderstood(m) && MeantFold(m, c).Loaded?
    ensures ListsSet(c, MeantFold(m, c).config, m)
  {
    FifteenNames();
    hide IsName, AllUnderstood, MeantFold, ListSet;
    ListFolded(m, c, FreeIPs, "freeIPList");
    ListFolded(m, c, FreeDomains, "freeDomainList");
    ListFolded(m, c, BlockedMACs, "blockedMACList");
    ListFolded(m, c, TrustedMACs, "trustedMACList");
  }

  lemma FieldsFolded(m: Members, c: Config)
    requires AllUnderstood(m)
    ensures MeantFold(m, c).Loaded? && FieldsSet(c, MeantFold(m, c).config, m)
  {
    AllUnderstoodIs(m);
    TextsFolded(m, c);
    NumbersFolded(m, c);
    ListsFolded(m, c);
    hide AllUnderstood, MeantFold, TextsSet, NumbersSet, ListsSet, Flat, FlatUntil, CopiesCleared;
  }

  lemma SetTransfers(c: Config, d: Config, e: Config, m: Members)
    requires FieldsSet(c, d, m) && SameFields(e, d)
    ensures FieldsSet(c, e, m)
  {
    TextsTransfer(c, d, e, m);
    NumbersTransfer(c, d, e, m);
    ListsTransfer(c, d, e, m);
    hide TextsSet, NumbersSet, ListsSet;
  }

  lemma TextsTransfer(c: Config, d: Config, e: Config, m: Members)
    requires TextsSet(c, d, m) && SameFields(e, d)
    ensures TextsSet(c, e, m)
  {
    hide LastText;
  }

  lemma NumbersTransfer(c: Config, d: Config, e: Config, m: Members)
    requires NumbersSet(c, d, m) && SameFields(e, d)
    ensures NumbersSet(c, e, m)
  {
    hide LastText, Says;
  }

  lemma ListsTransfer(c: Config, d: Config, e: Config, m: Members)
    requires ListsSet(c, d, m) && SameFields(e, d)
    ensures ListsSet(c, e, m)
  {
    hide AllElements;
  }

  /** Main result: loading the text of an object whose members are all understood sets each field to the text, the
      number or the elements that stand under its name. */
  lemma LoadSetsFields(v: Value, before: string, after: string, c: Config)
    requires v.Obj? && Valid(v) && AllUnderstood(v.members) && Blank(before) && Blank(after)
    requires |Tokens(v, |before|)| <= 256 && |c.scratch| == 128
    ensures var o := Load(before + Print(v) + after, c); o.Loaded? && FieldsSet(c, o.config, v.members)
  {
    AllUnderstoodIs(v.members);
    hide Load, Print, Tokens, Valid, Blank, FlatUntil, CopiesCleared, AllUnderstood, FieldsSet;
    LoadIsMeant(v, before, after, c);
    FieldsFolded(v.members, c);
    SetTransfers(c, MeantFold(v.members, c).config, Load(before + Print(v) + after, c).config, v.members);
  }

  lemma NotUnderstoodStops(key: string, value: Value)
    ensures NotUnderstood(key, value) <==> Stops(key, value)
  {
    KindOfKey(key);
    hide KeyNamed;
  }

  lemma {:induction false} UntilNotUnderstood(pre: Members, bad: Members, c: Config)
    requires AllUnderstood(pre) && bad.Member? && NotUnderstood(bad.key, bad.value)
    ensures FlatUntil(Append(pre, bad)) && CopiesCleared(Append(pre, bad))
    ensures MeantFold(pre, c).Loaded? && MeantFold(Append(pre, bad), c) == Rejected(MeantFold(pre, c).config)
    decreases pre
  {
    if pre.Member? {
      UnderstoodIs(pre.key, pre.value);
      UnderstoodMeant(pre.key, pre.value, c);
      hide Stops, FlatMember, Understood, NotUnderstood, AllShorter, MemberCopies, Clear, Meant;
      UntilNotUnderstood(pre.rest, bad, Meant(pre.key, pre.value, c).config);
    } else {
      NotUnderstoodStops(bad.key, bad.value);
      hide KeyNamed, ItemTexts, ValueText;
    }
  }

  /** Main result: a name that is none of the fifteen, or a list's name without an array, ends the load with an
      error; the fields are then as the members before it say, whatever stands under the name and behind. */
  lemma LoadStops(v: Value, before: string, after: string, pre: Members, bad: Members, c: Config)
    requires v.Obj? && Valid(v) && v.members == Append(pre, bad) && Blank(before) && Blank(after)
    requires |Tokens(v, |before|)| <= 256 && |c.scratch| == 128
    requires AllUnderstood(pre) && bad.Member? && NotUnderstood(bad.key, bad.value)
    ensures var o := Load(before + Print(v) + after, c); o.Rejected? && FieldsSet(c, o.config, pre)
  {
    UntilNotUnderstood(pre, bad, c);
    hide Load, Print, Tokens, Valid, Blank, FlatUntil, CopiesCleared, AllUnderstood, FieldsSet, MeantFold,
        NotUnderstood;
    LoadIsMeant(v, before, after, c);
    FieldsFolded(pre, c);
    SetTransfers(c, MeantFold(pre, c).config, Load(before + Print(v) + after, c).config, pre);
  }

  // ---------- How much is cleared ----------

  /** Longer texts are read as they stand only by luck: an element is, if and only if it has fewer than 32
      characters (128 for a domain), or a NUL of an earlier use stands behind it; so is the text of a number. */
  lemma LuckyTexts(c: Config, n: NumberField, f: ListField, text: string)
    requires |c.scratch| == 128 && NoNul(text) && |text| <= 128
    ensures var o := AddText(c, f, text);
      o.Loaded? && Listed(o.config, f) == Listed(c, f) + [text] <==>
      |text| < (if f == FreeDomains then 128 else 32) || (|text| < 128 && c.scratch[|text|] == '\0')
    ensures var o := SetNumber(c, n, text);
      o.Loaded? && CString(o.config.scratch) == text <==>
      |text| < 32 || (|text| < 128 && c.scratch[|text|] == '\0')
  {
    ReadAsCopied(c.scratch, Clear(ListKey(f)), text);
    ReadAsCopied(c.scratch, 32, text);
    var read := CString(ConfigServer.Copied(c.scratch, Clear(ListKey(f)), text));
    assert (Listed(c, f) + [read])[|Listed(c, f)|] == read;
    hide CString, Terminated, ConfigServer.Copied, Atoi, NoNul;
  }

  // ---------- Texts that set nothing ----------

  /** A text that closes more than it opens. */
  lemma TrailingBracketSetsNothing(js: string, bracket: char, rest: string, c: Config)
    requires Run(js, MAX_TOKENS, INITIAL, 0).0.Done? && (bracket == '}' || bracket == ']')
    requires forall k :: 0 <= k < |js| ==> js[k] != '\0'
    ensures Load(js + ([bracket] + rest), c) == Rejected(c)
  {
    ClosesTooMuch(js, MAX_TOKENS, bracket, rest);
    hide Run;
  }

  /** A JSON value that is no object. */
  lemma OtherValuesSetNothing(v: Value, before: string, after: string, c: Config)
    requires !v.Obj? && Valid(v) && Blank(before) && Blank(after) && |Tokens(v, |before|)| <= MAX_TOKENS
    ensures Load(before + Print(v) + after, c) == Rejected(c)
  {
    TokenizePrinted(v, before, after, MAX_TOKENS);
    hide Print, Run, Blank, Valid, ItemTokens;
  }

  /** An object of more than 256 tokens. */
  lemma TooManyTokensSetNothing(v: Value, before: string, after: string, c: Config)
    requires Valid(v) && Blank(before) && Blank(after) && |Tokens(v, |before|)| > 256
    ensures Load(before + Print(v) + after, c) == Rejected(c)
  {
    hide *;
    var js := before + Print(v) + after;
    var n := |Tokens(v, |before|)|;
    TokenizePrinted(v, before, after, n);
    MaxTokens();
    CapacityIsExact(js, MAX_TOKENS, n, INITIAL, 0);
    LoadFails(js, c);
  }

  lemma MaxTokens()
    ensures MAX_TOKENS == 256 && INITIAL.toks == []
  {
  }

  lemma LoadFails(js: string, c: Config)
    requires Run(js, MAX_TOKENS, INITIAL, 0).0.Fail?
    ensures Load(js, c) == Rejected(c)
  {
    hide Run;
  }

  /** No text, or nothing but white space. */
  lemma NoTextSetsNothing(w: string, c: Config)
    requires Blank(w)
    ensures Load(w, c) == Rejected(c)
  {
    assert w[0..0 + |w|] == w;
    BlankRun(w, MAX_TOKENS, INITIAL, 0, w);
    RunUnfolds(w, MAX_TOKENS, State(|w|, [], -1), 0);
    hide Run, Blank;
  }
}
