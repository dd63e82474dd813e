# Verified model of the wifi-cat gateway

wifi-cat is a captive portal: it puts clients behind an iptables firewall, lets them through once
they authenticate, and serves the pages for that with a small embedded web server. This project
models its three hard parts in Dafny and proves what they are for.

**The firewall and the clients.** `Iptables` is a model of the kernel: a table maps chains to rule
sequences, `Exec` runs the commands the program issues, and `Walk` is the fate of a packet (first
match, jump and return, marking and logging go on). `FwRules` holds the chains the program builds in
closed form; the class in `Firewall` issues the program's commands one by one and is proved to build
and to destroy those chains. `FwMeaning` and `FwClasses` prove what they do to packets, `FwEffects`
what they log and clamp, `FwTeardown` that destruction is the inverse of initialisation. `ClientList`
is the linked client list with its slot table. `GatewaySpec` puts the kernel tables, the client list
and the MAC lists into one world with one step for each section that runs under a lock, down to a
single counter line; `Gateway` is the imperative program, each method proved to make exactly its
steps; `GatewayProofs` and `GatewayTheorems` prove what every run keeps and how long a client can
stay, `GatewayIdle` how long without being heard of, `GatewaySteps` what each step achieves,
`GatewayPackets` and `GatewayIncoming` what that means for packets from and to a client.

**The configuration.** `Jsmn` is the JSON tokenizer as it is compiled here (no JSMN_STRICT, no
JSMN_PARENT_LINKS), a specification on values and the parser in place, proved equal. `JsmnStructure`,
`JsmnSizing`, `JsmnRefusal` and `JsmnRoundTrip` prove the structure of its tokens on arbitrary text, what
it needs of the token array, which texts it accepts, and the round trip of every JSON value.
`ConfigServer` is the walk over the tokens that sets the configuration, `ConfigKeys` what it sets in
terms of the names the server uses. `RuleText` is the parser of firewall rule lines.

**The HTTP text layer.** `Sanitiser` has the three in-place passes over a path, `SanitiserPaths`
what they compute segment by segment and against RFC 3986. `HttpText` is the percent codec,
`HttpVars` the query parser and the variables, `HttpReader` the buffered line reader, `Base64` the
decoder, `HttpEncodings` decoding against any encoder, `HttpHeaders` the header lines with credentials
and host, `HttpRequest` a whole request from the byte stream to variables and header fields, and
`AuthLink` the authentication link from its making to its reading.

`Bits` has the arithmetic of marks, `Letters` texts that differ in letter case, `Options` a value that
may be absent.

## What the proofs found

- The comma case of the tokenizer reads the token before the first one when no token is open. The
  model has a guard there; `JsmnStructure.StrayReadIsHarmless` proves that the value read cannot
  matter.
- Under `--or-mark` a client in two classes gets neither class when the marks share no bit: a blocked
  client that authenticates is not dropped, a trusted one that does is caught by the portal.
  `FwClasses.UnitedExactly` says for any marks when the two marking modes agree.
- Without mark masking in the kernel no client counts as authenticated.
- Whether a client's mark is recognised depends on the digits of the configured marks;
  `FwClasses.ClientMarkMasked` is the exact condition, `FwClasses.LongMarksMiss` a configuration that
  fails it.
- A second `..` in a row takes nothing back; `SanitiserPaths.SanitiseAgainstRfc` is the exact condition
  under which the sanitiser agrees with RFC 3986.
- `+` is not escaped by the encoder but decoded to a space; of several `=` in a piece the value stands
  after the last.
- A query name without `=` may end in what an older name left: `HttpVars.StaleName` is such a query,
  `HttpVars.BarePieceStored` the exact condition on the query.
- The base64 decoder does not test its stores. `Base64.StaysInside` is the exact condition on any text
  under which they stay in the output buffer, `Base64.Base64RoundTrip` that on the encoded bytes.
- The NUL behind a line that fills the line buffer is written one past its end. `HttpReader.Reader.ReadLine`
  has the exact condition on the stream, `HttpRequest.FullLineOverruns` a request that meets it.
- A request line that ends with its method takes its path from what stood in the line buffer before:
  `HttpRequest.StackDoesNotMatter` and `HttpRequest.StackMatters` are the two halves.
- Numbers and list elements of the server's configuration go through a scratch buffer of 128 characters
  without a test of their length. `ConfigServer.LoadStaysInside` is the exact condition under which the
  walk stays inside it. A text as long as the part that was cleared is read together with what an
  earlier, longer one left behind it: `ConfigServer.ReadAsCopied`. Shorter ones are set as the object
  says: `ConfigServer.LoadIsMeant`.

## Hypotheses

- `Foreign`: rules found in a table before the program starts jump only to user chains of that table.
  `Unrelated`, for teardown: they do not mention the program's chains, and no such chain exists
  (`Fresh`).
- The classification theorems need a kernel with mark masking; both marking modes are stated.
- A packet is judged when it carries none of the three marks yet.
- The theorems about packets in reachable states follow a packet from the PREROUTING hook on, and take it
  that what the rules found there before do to its mark leaves its class alone.
- The tokenizer round trip takes the grammar of sections 2 to 7 of RFC 8259; the configuration walk
  takes objects that are flat up to the key it stops at: scalars under scalar keys, arrays of scalars
  under list keys.
- The outcome `Stray` of the configuration walk stands for a copy or a read that goes past the scratch
  buffer and for tokens the parser did not set. `LoadStaysInside` takes a scratch buffer whose last
  character is a NUL; `LoadIsMeant` and `ReadAsCopied` take any.
- A link has fewer than 1024 characters in its request path, and the authentication directory is
  printable ASCII that the sanitiser leaves alone.

## Model

| member | source | states |
|---|---|---|
| FwMeaning.ForwardCompiled | src/fw_iptables.c:523-593 | The filter table built from any configuration gives every forwarded packet from the gateway interface the verdict the configuration asks for: DROP for INVALID or BLOCKED; for TRUSTED and AUTHENTICATED the policy of an empty ruleset, else established accepted, else the first terminating rule, else REJECT; for others the preauthenticated policy or rules, else REJECT; LOG and ULOG never decide. Where it asks for none, and for other packets, the outcome is that of the rules found there before |
| FwMeaning.InputCompiled | src/fw_iptables.c:458-522 | The same for packets to the router itself |
| FwMeaning.NatCompiled | src/fw_iptables.c:425-444 | The nat table built from any configuration exempts TRUSTED and AUTHENTICATED packets, then follows the preauthenticated rules, then redirects web requests to the gateway port |
| FwMeaning.CaptivePortal | src/fw_iptables.c:425-593 | Across the tables: with preauthenticated rules that only allow or log, every new web request of a client that is neither trusted nor authenticated is either exempted in nat and forwarded by the same rule, or redirected and then accepted by the INPUT chain |
| FwMeaning.RedirectedExactly | src/fw_iptables.c:425-444 | Whatever the rulesets, a web request is redirected if and only if its client is neither trusted nor authenticated and no terminating preauthenticated rule applies to it |
| FwMeaning.ClassChainWalk | src/fw_iptables.c:258-276 | The chain of one class, compiled from its ruleset, gives that class's verdict; LOG and ULOG rules pass the packet on |
| FwMeaning.RulesetWalk | src/fw_iptables.c:198-276 | Walking a compiled ruleset ends at its first terminating rule that applies, and falls through when there is none |
| FwEffects.EffectsCompiled | src/fw_iptables.c:453-597 | Whatever the configuration, a packet from the gateway interface that the filter table decides about is logged by exactly the LOG and ULOG rules of its ruleset that apply before the rule that decides, in their order, and its segment size is clamped exactly when that is configured, it is a connection request over TCP on its way to the internet and it is neither INVALID nor BLOCKED, with the configured value or that of the path |
| FwEffects.NatEffectsCompiled | src/fw_iptables.c:425-444 | So for logging in nat: the preauthenticated rules of packets that are neither TRUSTED nor AUTHENTICATED |
| FwClasses.Classified | src/fw_iptables.c:374-401 | A packet without a mark leaves the three PREROUTING jumps with masked mark TRUSTED, else BLOCKED, else AUTHENTICATED, else 0 under --set-mark, and with the union of the classes that apply under --or-mark |
| FwClasses.UnitedExactly | src/fw_iptables.c:118-131 | For any marks, --or-mark gives the class --set-mark would give if and only if every class that applies to the packet has its mark inside that class's mark |
| FwClasses.UnitedWithSeparateMarks | src/fw_iptables.c:118-131 | With marks that share no bit that is so if and only if at most one class applies, and when two do the packet has none of the three marks |
| FwClasses.TrustedLoginIsLost | src/fw_iptables.c:118-131 | A concrete failure under --or-mark: with the default marks a trusted client that also authenticates has neither class |
| FwClasses.ClientMarkMasked | src/fw_iptables.c:770-775 | The mark of a client, its index and FW_MARK_AUTHENTICATED as hexadecimal texts side by side, masks to FW_MARK_AUTHENTICATED if and only if the index digits do not overlap the mask |
| FwClasses.LongMarksMiss | src/fw_iptables.c:770-775 | A concrete failure: with the marks 0x1000 blocked, 0x2000 trusted and 0x400 authenticated the first client's mark masks to something else |
| FwClasses.ShortMarksFit | src/fw_iptables.c:79-99 | That holds for every index when the other marks have no more hexadecimal digits |
| FwClasses.ClientMarksDiffer | src/fw_iptables.c:770-775 | Two clients have the same mark if and only if they have the same index |
| FwClasses.UnmaskedLoginIsLost | src/fw_iptables.c:118-150 | On a kernel without mark masking a packet stamped with a client's mark, set or or-ed into any earlier mark, is never taken for AUTHENTICATED |
| FwClasses.PreroutingWalk | src/fw_iptables.c:374-401 | The mark any packet from the gateway interface carries after the three jumps, in both marking modes |
| FwClasses.HoldsMacsMeans | src/fw_iptables.c:278-312 | A MAC chain that holds a list applies to a packet exactly when its MAC is on the list |
| Bits.MaskConcat | src/fw_iptables.c:770-775 | Masking a number written above n bits leaves the lower part exactly when the mask misses the upper part |
| Bits.HexRoundTrip | src/fw_iptables.c:770-775 | Reading the hexadecimal text of a mark gives the mark back |
| FwTeardown.Teardown | src/fw_iptables.c:611-742 | Destroying the firewall, from any contents of the program's mangle chains, gives back the very tables found before initialisation, when no rule there mentions the program's chains |
| FwTeardown.MangleDestroyed | src/fw_iptables.c:632-652 | The mangle part of that |
| FwTeardown.FilterDestroyed | src/fw_iptables.c:665-682 | The filter part of that |
| FwTeardown.NatDestroyed | src/fw_iptables.c:654-661 | The nat part of that |
| Iptables.RemoveFirstMultiset | src/fw_iptables.c:785-787 | Deleting by rule removes one copy and nothing else |
| Firewall.Firewall.InitMarks | src/fw_iptables.c:78-99 | Succeeds if and only if the three marks are distinct and none is zero |
| Firewall.Firewall.CheckMarkMasking | src/fw_iptables.c:118-150 | Finds out whether the kernel knows --or-mark and mark masks, and leaves the tables as they were |
| Firewall.Firewall.AppendRuleset | src/fw_iptables.c:258-276 | Appends the compiled rules of a ruleset, in order, and changes no other chain |
| Firewall.Firewall.BlockMac | src/fw_iptables.c:278-282 | Appends a rule that marks the MAC to the blocked chain; nothing else changes |
| Firewall.Firewall.UnblockMac | src/fw_iptables.c:284-288 | Deletes the first copy of that rule |
| Firewall.Firewall.AllowMac | src/fw_iptables.c:290-294 | Puts a rule that returns for the MAC at the head of the blocked chain |
| Firewall.Firewall.UnallowMac | src/fw_iptables.c:296-300 | Deletes the first copy of that rule |
| Firewall.Firewall.TrustMac | src/fw_iptables.c:302-306 | Appends a rule that marks the MAC to the trusted chain |
| Firewall.Firewall.UntrustMac | src/fw_iptables.c:308-312 | Deletes the first copy of that rule |
| Firewall.Firewall.InitMangle | src/fw_iptables.c:362-415 | The mangle commands build the closed-form mangle table |
| Firewall.Firewall.InitNat | src/fw_iptables.c:420-448 | The nat commands build the closed-form nat table |
| Firewall.Firewall.InitFilter | src/fw_iptables.c:453-597 | The filter commands build the closed-form filter table |
| Firewall.Firewall.FwInit | src/fw_iptables.c:316-605 | Command by command, initialisation builds the closed-form tables whose meaning the theorems state; it reports failure exactly for marks that clash |
| Firewall.Firewall.FwAccess | src/fw_iptables.c:746-801 | The three client rules are appended, or their first copies deleted, and nothing else changes |
| Firewall.Firewall.DestroyMention | src/fw_iptables.c:692-742 | The recursion that deletes by rule number and starts over ends with exactly the rules that do not mention the chain |
| Firewall.Firewall.FwDestroy | src/fw_iptables.c:611-690 | All mentions, then the chains' contents, then the chains go |
| ClientSpec.SlotAvailable | src/client_list.c:111-167 | With fewer clients than slots the search for an index ends inside the table |
| ClientSpec.AddKeepsSound | src/client_list.c:191-220 | Adding keeps: no two clients share an address pair or an index, indices are in range, and the limit is kept |
| ClientSpec.RemoveKeepsSound | src/client_list.c:336-368 | So does removing |
| GatewaySteps.Arrives | src/client_list.c:111-220 | An address pair that is not listed, below the limit, is listed behind the others: preauthenticated, with its token, the time of its arrival, no traffic and a slot nobody holds; otherwise nothing changes |
| ClientList.ClientList.EmptySlot | src/client_list.c:111-140 | Finds the first free slot |
| ClientList.ClientList.Append | src/client_list.c:111-167 | Over the limit nothing changes; else a new node with the first free index stands at the tail and in its slot, and the list stays well linked |
| ClientList.ClientList.AddClient | src/client_list.c:191-220 | A known address pair is returned, an unknown one appended; the list is the specified one |
| ClientList.ClientList.Find | src/client_list.c:228-246 | The first client with that address pair, or none |
| ClientList.ClientList.FindByIp | src/client_list.c:250-268 | The first client with that address, or none |
| ClientList.ClientList.FindByMac | src/client_list.c:271-287 | The first client with that MAC, or none |
| ClientList.ClientList.FreeNode | src/client_list.c:311-331 | Clears the slot only if it still names this client |
| ClientList.ClientList.Delete | src/client_list.c:336-368 | Exactly that node leaves the list and its slot; a client not on the list changes nothing; the node keeps its own next pointer |
| GatewayTheorems.RunGood | src/auth.c:93-134 | Over every interleaving of the locked sections (add, authenticate, deauthenticate, each counter line, each sweep, each MAC command): no two clients share an address pair or an index; the client rules are, as multisets, exactly the three rules of each authenticated client, even when two clients share an address; the MAC chains hold exactly the MAC lists, which have no repeats; all else stands as it was built |
| GatewayTheorems.StepGood | src/auth.c:93-134 | One step keeps that |
| GatewayTheorems.StartGood | src/fw_iptables.c:316-605 | Initialisation establishes it |
| GatewaySteps.LoginWorks | src/auth.c:93-117 | In every state that keeps the invariant, authenticating a listed client changes exactly its own entry, and that to authenticated; its three rules then stand in the client chains, and its packets, and nobody else's, have become those of a login |
| GatewaySteps.LogoutWorks | src/auth.c:119-134 | After a deauthentication the pair is not listed and nobody else has changed; no rule of the outgoing chain applies to its packets, which are nobody's |
| GatewaySteps.PacketsFollowLogin | src/fw_iptables.c:374-401 | In every reachable state: from its login on the PREROUTING hook gives the packets of a client that is neither trusted nor blocked the class AUTHENTICATED, and from its deauthentication on none |
| GatewaySteps.TrustWorks | src/conf.c:1452-1534 | Trusting an address puts it on the list, taking that back takes it off; no other address, list or client is touched |
| GatewaySteps.BlockWorks | src/conf.c:1560-1653 | So for blocking, under the block mechanism; under the other nothing changes |
| GatewaySteps.AllowWorks | src/conf.c:1676-1768 | So for allowing, under the allow mechanism; under the other nothing changes |
| GatewaySteps.ListsDecideClass | src/fw_iptables.c:278-312 | Under --set-mark a trusted address has the class TRUSTED, and one that is not trusted and is on the blocked list, or off the allowed one, the class BLOCKED |
| GatewaySteps.LinesCount | src/fw_iptables.c:918-968 | A counter line is about the first client of its address: a higher reading raises the counter, an outgoing one renews the time of last activity; a lower one, and every other client, changes nothing |
| GatewaySteps.ListingCounts | src/fw_iptables.c:904-930 | After a listing the outgoing counter of the first client of an address is the highest reading of that address, or what it was if that is higher |
| GatewayPackets.LoginMeets | src/fw_iptables.c:770-778 | The outgoing chain of a reachable state stamps a packet with the mark of its authenticated client and no other |
| GatewayPackets.PacketMarked | src/fw_iptables.c:374-401 | In every reachable state the whole PREROUTING hook gives an unmarked packet from the gateway interface the class that the MAC lists and the client list of that moment ask, and then leaves it to the rules found there before |
| GatewayPackets.ForwardByClass | src/fw_iptables.c:523-593 | In every reachable state a packet from the gateway interface is forwarded, dropped or rejected by the class it carries |
| GatewayPackets.PacketFate | src/fw_iptables.c:374-593 | Both together: every unmarked packet has the fate that the configuration, the MAC lists and the client list of that moment ask under --set-mark, and under --or-mark when at most one class applies; with two classes and marks that share no bit it is treated as a stranger's, blocked or not |
| GatewayPackets.PortalAtWork | src/fw_iptables.c:374-593 | In every reachable state a new web request of a client that is at that moment neither trusted nor blocked nor authenticated is exempted and forwarded, or redirected and accepted, when the preauthenticated rules only allow or log |
| GatewayPackets.RedirectedAtWork | src/fw_iptables.c:374-444 | In every reachable state a web request is redirected if and only if no terminating preauthenticated rule applies and its client is not trusted, and not authenticated or blocked; under --or-mark, with two classes and marks that share no bit, if and only if no terminating preauthenticated rule applies |
| GatewayIncoming.IncomingPacket | src/fw_iptables.c:371-378 | In every reachable state the POSTROUTING hook accepts a packet to the address of an authenticated client in the gateway network, marked as clients of that address; every other packet sees the rules found there before, as it is |
| GatewayIncoming.OneClientMarks | src/fw_iptables.c:775-777 | With one client of the address the mark is exactly that client's |
| GatewayIncoming.ReachedInOrder | src/fw_iptables.c:775-791 | In every reachable state the incoming chain marks a packet before it accepts it, even when clients that share an address come and go |
| GatewayTheorems.TeardownAfterRun | src/fw_iptables.c:611-742 | Initialisation, any run and then destruction give back the tables found at the start |
| GatewayTheorems.SweepIsFilter | src/firewall.c:158-199 | The pass that deletes from the list it walks leaves, in order, the clients whose deadlines had not passed when they were visited |
| GatewayTheorems.SurvivorsAre | src/firewall.c:158-199 | A client survives if and only if its visit is before its last activity and the idle time-out, and before its arrival and the forced one, each counted in check intervals |
| GatewayTheorems.PassesKeepYoung | src/firewall.c:146-199 | Over every timed run, whatever comes between the counter lines and the sweeps, with sweeps at most g seconds apart each client was younger than the forced time-out, and had not been idle for the idle one, at the last sweep |
| GatewayTheorems.NobodyOutstays | src/firewall.c:146-199 | So no client stays listed for the forced time-out and g seconds |
| GatewayIdle.NobodyIdles | src/firewall.c:146-199 | So no client stays listed for the idle time-out and g seconds after it was last heard of: after its arrival or the last growth of its outgoing counter, whichever came later |
| GatewayIdle.UpdatedIsHeard | src/fw_iptables.c:918-929 | Over every timed run the time kept for a listed client is that of its arrival or of the last growth of its outgoing counter |
| GatewayProofs.RevokeRemoves | src/fw_iptables.c:781-791 | Deauthenticating removes one copy of each of the client's three rules from the multisets |
| GatewayProofs.GrantAdds | src/fw_iptables.c:770-778 | Authenticating adds one copy of each |
| GatewayProofs.TrustGood | src/conf.c:1452-1488 | Trusting a MAC keeps chain and list in step |
| GatewayProofs.UntrustGood | src/conf.c:1490-1534 | So does taking it back |
| GatewayProofs.BlockGood | src/conf.c:1560-1602 | So does blocking |
| GatewayProofs.UnblockGood | src/conf.c:1604-1653 | So does unblocking |
| GatewayProofs.AllowGood | src/conf.c:1676-1718 | So does allowing |
| GatewayProofs.UnallowGood | src/conf.c:1720-1768 | So does taking that back |
| GatewayProofs.MacCommandsWork | src/fw_iptables.c:278-312 | While the chains hold the lists the kernel commands of all six MAC commands succeed, so that the reply is decided by the list alone |
| Gateway.Gateway.MakeAuthenticated | src/auth.c:93-117 | The method makes exactly the specified step, and counts it once |
| Gateway.Gateway.MakeDeauthenticated | src/auth.c:119-134 | The method makes exactly the specified step |
| Gateway.Gateway.Access | src/fw_iptables.c:746-801 | The rules of a listed client, by its own address pair and index |
| Gateway.Gateway.Connect | src/ndsctl_thread.c:278-296 | The first locked section of an authentication: the address is added to the list |
| Gateway.Gateway.FindForDeauth | src/ndsctl_thread.c:311-331 | The first client with the argument as its address; when there is none, the first with it as its MAC; else none |
| Gateway.Gateway.TrustCommand | src/ndsctl_thread.c:422-439 | The command makes exactly the specified step on list and chain, and says yes if and only if the list changed and the kernel command succeeded |
| Gateway.Gateway.UntrustCommand | src/ndsctl_thread.c:441-458 | The command makes exactly the specified step on list and chain, and says yes if and only if the list changed and the kernel command succeeded |
| Gateway.Gateway.BlockCommand | src/ndsctl_thread.c:346-363 | The command makes exactly the specified step on list and chain, and says yes if and only if the list changed and the kernel command succeeded |
| Gateway.Gateway.UnblockCommand | src/ndsctl_thread.c:365-382 | The command makes exactly the specified step on list and chain, and says yes if and only if the list changed and the kernel command succeeded |
| Gateway.Gateway.AllowCommand | src/ndsctl_thread.c:384-401 | The command makes exactly the specified step on list and chain, and says yes if and only if the list changed and the kernel command succeeded |
| Gateway.Gateway.UnallowCommand | src/ndsctl_thread.c:403-420 | The command makes exactly the specified step on list and chain, and says yes if and only if the list changed and the kernel command succeeded |
| Gateway.Gateway.CountOutOne | src/fw_iptables.c:918-929 | One line, under its own lock: the byte count raises the client's outgoing counter and renews its time only when it is higher |
| Gateway.Gateway.CountInOne | src/fw_iptables.c:958-968 | The same for incoming bytes, without the time |
| Gateway.Gateway.CountOut | src/fw_iptables.c:904-930 | The lines in turn, the clock read for each, are the specified steps in sequence |
| Gateway.Gateway.CountIn | src/fw_iptables.c:944-970 | The lines in turn are the specified steps in sequence |
| Gateway.Gateway.SweepList | src/firewall.c:156-199 | The walk stays on valid nodes while it deletes, and makes exactly the specified sweep |
| Gateway.Gateway.RefreshClients | src/firewall.c:146-199 | A pass that nothing comes between is the run of its counter lines and its sweep |
| JsmnRoundTrip.TokenizePrinted | src/jsmn.c:153-300 | Every JSON value, printed with any white space, is tokenized to the number of its nodes and their preorder tokens with exact spans; the size of an array is its element count, of an object its key count, of a key 1, of any other leaf 0 |
| JsmnStructure.TokenizerStructure | src/jsmn.c:153-300 | On any text, at every return: starts strictly increase, only containers are open, closed spans are nested or disjoint and bracket-matched, the superior index is in range, and sizes sum to the tokens not made at top level; on success nothing is open |
| JsmnStructure.StrayReadIsHarmless | src/jsmn.c:243-245 | The comma case reads `tokens[-1]` only while nothing is open: whatever stands there, the result is that of the guarded model |
| JsmnStructure.SizesCountTokens | src/jsmn.c:160-299 | Over any run the sizes grow by the new tokens less those made at top level |
| JsmnRefusal.Accepts | src/jsmn.c:153-300 | On any text the tokenizer succeeds, or fails with JSMN_ERROR_INVAL or JSMN_ERROR_PART, exactly as a reader does that keeps nothing but the brackets still to be closed; only want of tokens comes before that |
| JsmnRefusal.ClosingBracketsClose | src/jsmn.c:184-227 | On any text, at every return: each closing bracket read outside a string is the last character of a closed container, which begins with a bracket of its kind before it |
| JsmnRefusal.ClosesTooMuch | src/jsmn.c:219-220 | A text that is accepted and goes on with a closing bracket is refused with JSMN_ERROR_INVAL, whatever follows |
| JsmnRefusal.StringEndIs | src/jsmn.c:86-148 | A string ends at a quote if and only if what is before it has no bare quote and no NUL and every backslash in it begins one of the nine escapes |
| JsmnRefusal.StringBrokenIs | src/jsmn.c:86-148 | A string is invalid if and only if its first fault is a backslash without an escape behind it; otherwise it is cut short |
| JsmnRefusal.PrimitiveEndIs | src/jsmn.c:37-81 | A primitive runs up to white space, a colon, a comma, a closing bracket or the end, and is invalid if and only if a character before that is not printable ASCII |
| JsmnSizing.Resume | src/jsmn.c:66-74 | After running out of tokens, calling again with a larger array that holds the same prefix reaches the same state as one call with the larger array |
| JsmnSizing.CapacityIsExact | src/jsmn.c:8-21 | A run needs exactly as many tokens as it makes: fewer give the out-of-tokens error with a full array, as many give the same result |
| JsmnSizing.CountFirst | src/jsmn.c:99-107 | A counting run that returns c: capacity c never runs out, and every run that succeeds returns c |
| JsmnSizing.CountingAgrees | src/jsmn.c:160-173 | The counting run reads the text in lockstep with a run over an array |
| JsmnSizing.CountsItsTokens | src/jsmn.c:292-299 | The returned number is that of the tokens the call made |
| Jsmn.Parser.AllocToken | src/jsmn.c:8-21 | The next token, cleared, or -1 with nothing changed |
| Jsmn.Parser.ParsePrimitive | src/jsmn.c:37-81 | The span up to the delimiter, or an error with position and token count rolled back |
| Jsmn.Parser.ParseString | src/jsmn.c:86-148 | The span between the quotes with escapes checked, or an error with position and token count rolled back |
| Jsmn.Parser.FindOpen | src/jsmn.c:203-226 | The last open token below an index |
| Jsmn.Parser.CloseBracket | src/jsmn.c:184-227 | The innermost open token is closed if its bracket matches, and its superior is found |
| Jsmn.Parser.Comma | src/jsmn.c:243-259 | The superior after a comma, with a guard the source does not have |
| Jsmn.Parser.Round | src/jsmn.c:160-290 | One round is one step of the specification; on an error nothing has changed |
| Jsmn.Parser.Parse | src/jsmn.c:153-300 | The in-place parser ends and computes the specified run |
| Jsmn.Parser.Count | src/jsmn.c:153-300 | Without a token array it computes the specified counting run |
| ConfigServer.LoadIsFold | src/conf.c:794-1003 | On the text of an object, flat as far as the walk goes, with any white space, the walk sets what the left fold of its members sets; with more tokens than the array holds it sets nothing |
| ConfigServer.KeysAreVisited | src/conf.c:838-1003 | A walk that is not stopped looks at every key exactly once, in order, and never at a value |
| ConfigServer.StopsAfterThePairsBefore | src/conf.c:998-1001 | On such a text a key that is not known, or a list key without a list, ends the walk with an error after exactly the pairs before it were applied, whatever stands under it and behind it |
| ConfigServer.LoadStaysInside | src/conf.c:794-1003 | On the text of an object that is flat up to its stop and within the token array, loading stays inside the scratch buffer of 128 characters if and only if every number and every list element up to the stop has fewer than 128 |
| ConfigServer.WalkStaysInside | src/conf.c:838-1003 | The same for the members of an object, from any scratch buffer that ends in a NUL |
| ConfigServer.CopyStaysInside | src/conf.c:885-889 | One copy and the reading of it stay inside the scratch buffer if and only if the text is shorter than the buffer; then the buffer still ends in a NUL |
| ConfigServer.ReadAsCopied | src/conf.c:885-889 | What is read back is the text that was copied if and only if it is shorter than the part that was cleared, or a NUL of an earlier use stands behind it |
| ConfigServer.LoadIsMeant | src/conf.c:794-1003 | With numbers and list elements of fewer than 32 characters (128 for domains), loading the text of an object that is flat up to its stop sets the fields to what its members say, whatever the scratch buffer held before |
| ConfigKeys.LoadSetsFields | src/conf.c:838-1003 | Loading an object whose members are understood sets each of the fifteen fields by the name the server uses for it: a text to the text of the last member of that name, a number to the number that text says in decimal, a list to its elements behind those it had; a name that does not occur leaves its field alone |
| ConfigKeys.LoadStops | src/conf.c:838-1003 | A name that is none of the fifteen, or a list's name without an array, ends the load with an error, the fields being as the members before it say |
| ConfigKeys.DecimalRead | src/conf.c:885-890 | A number printed in decimal, with or without a sign, blanks before it and anything but a digit behind it, is read back |
| ConfigKeys.NoNumberRead | src/conf.c:885-890 | Where no digit stands the number is zero |
| ConfigKeys.LuckyTexts | src/conf.c:885-945 | A longer text is read as it stands if and only if a NUL of an earlier use stands behind it: the exact bounds are 32 characters, and 128 for domains |
| ConfigKeys.TrailingBracketSetsNothing | src/conf.c:824-828 | A text that is accepted and goes on with a closing bracket sets nothing |
| ConfigKeys.OtherValuesSetNothing | src/conf.c:829-833 | A JSON value that is no object sets nothing |
| ConfigKeys.TooManyTokensSetNothing | src/conf.c:822-828 | Nor does an object of more than 256 tokens |
| ConfigKeys.NoTextSetsNothing | src/conf.c:829-833 | Nor does white space |
| ConfigServer.Loader.ConfigFromServer | src/conf.c:794-1003 | On any text the method computes the specified load, with the codes 1 and -4, and 0 where the code would read a token the parser did not set or go past its scratch buffer |
| ConfigServer.Loader.Key | src/conf.c:838-1001 | One round of the loop is one specified step, up to a copy that would go past the scratch buffer |
| ConfigServer.Loader.KeyScalar | src/conf.c:839-932 | A text is set as it is, a number read from the scratch buffer |
| ConfigServer.Loader.KeyNumber | src/conf.c:885-890 | The first 32 characters of the scratch buffer are cleared, the text is copied over its start and the number read up to the first NUL |
| ConfigServer.Loader.KeyList | src/conf.c:933-996 | A list key: nothing is added unless its value is a list; otherwise its elements one by one |
| ConfigServer.Loader.AddElements | src/conf.c:939-945 | Each element of the array is copied over the start of the scratch buffer and added as it is read from there, in order |
| RuleText.RuleRoundTrip | src/conf.c:539-662 | A printed firewall rule is read back, in any letter case and with any blanks between its words; a mask left out is read as 0.0.0.0/0 |
| RuleText.RulesRoundTrip | src/conf.c:648-660 | The lines of a ruleset rebuild its rules in order at the tail |
| RuleText.ParsedByWords | src/conf.c:539-662 | A line of any words, in any letter case and with any blanks between and behind them, is parsed as the words read in turn: what is accepted, with which parts, and what is refused with which code |
| RuleText.AcceptedRule | src/conf.c:590-632 | Whatever line is accepted, a port stands only under tcp or udp and is digits and colons, and a mask is digits, dots and slashes; refusals have the four codes |
| RuleText.ToNextWord | src/conf.c:368-380 | The first word, the text from the next word on, and whether the word ended the text |
| RuleText.RuleSet.ParseFirewallRule | src/conf.c:539-662 | An accepted rule goes to the tail; a refused line changes nothing and returns its code |
| SanitiserPaths.SanitiseAgainstRfc | libhttpd/protocol.c:724-790 | On an absolute path the three passes give what remove_dot_segments of section 5.2.4 of RFC 3986 gives, with empty segments collapsed, if and only if the path does not end in a dot segment and never goes up twice in a row below the root |
| SanitiserPaths.SecondUpIsLost | libhttpd/protocol.c:774-780 | Where they part: `/a/b/../../c` becomes `/a/c` |
| SanitiserPaths.SanitisedIsClean | libhttpd/protocol.c:724-790 | The result holds no `//`, `/./` or `/../` |
| SanitiserPaths.FixedExactlyWhenClean | libhttpd/protocol.c:724-790 | The text is left alone if and only if it holds none of them; so a second pass changes nothing |
| SanitiserPaths.SanitiseIsClimb | libhttpd/protocol.c:724-790 | The three passes on characters are one walk over segments that can take back one segment at a time |
| SanitiserPaths.RemoveIsPushPop | libhttpd/protocol.c:761-790 | The text routine of the RFC is push and pop over segments |
| Sanitiser.CollapsePass | libhttpd/protocol.c:731-744 | The first pass in place |
| Sanitiser.DropDotsPass | libhttpd/protocol.c:746-760 | The second pass in place |
| Sanitiser.GoUpPass | libhttpd/protocol.c:762-789 | The third pass in place, with its mark of the last slash |
| Sanitiser.SanitiseUrl | libhttpd/protocol.c:724-790 | The buffer then holds the sanitised text |
| HttpText.CodecRoundTrip | libhttpd/protocol.c:289-316 | Decoding an encoded text gives it back with `+` read as a space; exactly the text if and only if it has no `+` |
| HttpText.EscapeIsPlain | libhttpd/protocol.c:668-720 | An encoded text has no character that splits a request line, a path or a query |
| HttpText.UnescapeIsDecode | libhttpd/protocol.c:289-316 | When no escape is cut short, decoding does not depend on what stood in the buffer before |
| HttpEncodings.AnyEncoding | libhttpd/protocol.c:281-316 | Whatever way a text is encoded in, each character as itself, a blank as `+`, any character as an escape with digits of either letter case, decoding gives it back |
| HttpEncodings.HalfEscape | libhttpd/protocol.c:289-316 | An escape that ends the text with one digit counts it as the first of two |
| HttpEncodings.BarePercent | libhttpd/protocol.c:289-316 | A `%` that ends the text stands for the character that is where the decoder writes |
| HttpEncodings.EncoderWrites | libhttpd/protocol.c:668-720 | The encoder keeps letters, digits and thirteen other characters, and writes every other byte as an escape with large letters |
| HttpEncodings.AnyQueryRead | libhttpd/protocol.c:340-404 | A query whose values are encoded in any way is read field by field |
| HttpText.HttpdEscape | libhttpd/protocol.c:691-719 | The second loop fills exactly the buffer the first loop measured |
| HttpText.HttpdUnescape | libhttpd/protocol.c:289-316 | The text is decoded over itself; nothing behind its new end or before it changes |
| HttpVars.VariablesAreAMap | libhttpd/api.c:158-191 | The list of lists is a map: under a name stand exactly the values added under it, in order |
| HttpVars.BlanksDropped | libhttpd/api.c:162-163 | Blanks and tabs before a name are dropped |
| HttpVars.FeedIsPairs | libhttpd/protocol.c:340-404 | The character loop stores the pairs of the pieces between `&`: the name before the first `=`, the decoded value after the last |
| HttpVars.BarePieceStored | libhttpd/protocol.c:355-374 | A piece without `=` that is not the last of its query is stored under its own text if and only if no earlier piece wrote more characters than it has, or the last one that did has a name of exactly as many |
| HttpVars.StaleName | libhttpd/protocol.c:355-374 | A concrete failure: `abc=1&x&` stores a name `xbc` |
| HttpVars.BareName | libhttpd/protocol.c:366-374 | The name such a piece is read under is its text and what is left behind it in the name buffer |
| HttpRequest.Request.AddVariable | libhttpd/api.c:158-191 | The specified addition, with leading blanks of the name dropped |
| HttpRequest.Request.GetVariableByName | libhttpd/api.c:87-99 | The first value under the name, if there is one |
| HttpRequest.Request.StoreData | libhttpd/protocol.c:340-404 | The query is stored as specified, decoding values in place, within a name buffer of the query's length |
| HttpRequest.Request.ReadRequest | libhttpd/api.c:379-612 | Whatever the division of the stream into reads and whatever stands in the line buffer before, the request ends with the specified method, path, query, variables and header fields; a line that fills the line buffer is reported, if and only if the stream has one where it is read |
| HttpRequest.Request.ReadLines | libhttpd/api.c:400-594 | The part of that up to the end of the headers |
| HttpRequest.FullLineOverruns | libhttpd/api.c:403 | A concrete failure: a request line of 10240 characters puts its NUL one past the line buffer |
| HttpRequest.StackDoesNotMatter | libhttpd/api.c:435-446 | When the request line does not end with its method, what the request comes to does not depend on what stood in the line buffer before |
| HttpRequest.StackMatters | libhttpd/api.c:435-446 | When it does, it depends on that: two contents of the buffer give two paths |
| HttpRequest.InnerText | libhttpd/api.c:435-446 | What stands behind the end of the line: the rest of the line behind a NUL in it, else what was in the buffer before |
| HttpRequest.Request.ReadHeaders | libhttpd/api.c:448-594 | The header lines up to an empty one set the specified fields |
| HttpRequest.Request.TakeHeader | libhttpd/api.c:491-544 | One header line: credentials under Authorization, the host under Host, each name in any letter case |
| HttpRequest.Request.TakeCredentials | libhttpd/api.c:500-518 | The decoded text is split at its first colon into user and password, or decoding it is reported to write outside its buffer |
| HttpHeaders.CredentialsRoundTrip | libhttpd/api.c:491-519 | An Authorization header with the encoding of user, colon and password, whatever the letter case of its name, the blanks before the encoding, the text behind it in the buffer and the fields so far, sets exactly that user and that password when the three have fewer than a hundred characters; otherwise decoding it writes outside its buffer |
| HttpHeaders.HostRoundTrip | libhttpd/api.c:532-545 | A Host header, its name in any letter case, sets exactly that host, cut at 1023 characters |
| HttpHeaders.EveryHeader | libhttpd/api.c:448-594 | Every header line up to the empty one is used, in order, and what follows is left |
| HttpHeaders.OtherHeaderIgnored | libhttpd/api.c:448-594 | A header of any other name changes nothing |
| HttpHeaders.OtherSchemeIgnored | libhttpd/api.c:491-498 | So do credentials of another scheme than Basic |
| HttpHeaders.CredentialsCut | libhttpd/api.c:506-518 | User and password are parted at the first colon and cut at 127 characters each |
| HttpHeaders.UserAlone | libhttpd/api.c:506-518 | Without a colon the password stays as it was |
| HttpHeaders.PlainOfEncoded | libhttpd/protocol.c:223-277 | Behind any blanks and before any NUL, an encoding decodes within a hundred characters if and only if it is of fewer than a hundred bytes, and then to those |
| HttpHeaders.OneHeader | libhttpd/api.c:448-470 | A header line and an empty line are read, and what follows them is left |
| HttpRequest.Request.FirstLine | libhttpd/api.c:409-446 | Method and sanitised path of the first line, or refusal; the path of a line that ends with its method is read from behind the line |
| HttpRequest.Request.SplitQuery | libhttpd/api.c:599-609 | The path is cut at its first `?` and the query stored |
| HttpReader.Reader.ReadChar | libhttpd/protocol.c:82-98 | The next byte of the stream, or its end |
| HttpReader.Reader.ReadLine | libhttpd/protocol.c:100-132 | The next line of the stream, whatever its division into reads, over the old contents of the buffer; its NUL goes one past the end if and only if the length is that of the buffer and the stream, before its first line feed or byte that is not ASCII, holds that many characters other than carriage returns |
| HttpReader.LineOfStream | libhttpd/protocol.c:100-132 | The next line of any stream, in terms of the text before its first line end: all of that without carriage returns, or the first characters of it when it is too long, or no line; it is full exactly when there are enough |
| HttpReader.LineIsRead | libhttpd/protocol.c:100-132 | Text ended by a line feed or a byte that is not ASCII is a line, without its carriage returns |
| HttpReader.LongLineIsCut | libhttpd/protocol.c:100-132 | A longer one, carriage returns or not, is cut behind the last character that fits, and the rest is read next |
| HttpReader.TailIsDropped | libhttpd/protocol.c:100-132 | A tail that nothing ends is no line |
| AuthLink.LinkRoundTrip | src/http.c:587-687 | For any token and redirection without NUL, following the authentication link, by GET or POST in any letter case, gives both back, `+` read as a space, and exactly both if and only if neither has a `+` |
| AuthLink.LinkWithCredentials | libhttpd/api.c:379-612 | A request that follows the link with an Authorization header behind it ends with that user and password |
| AuthLink.LinkWithHost | libhttpd/api.c:379-612 | And one with a Host header ends with that host |
| AuthLink.PathIsSecondWord | libhttpd/api.c:417-446 | The path of a request is the first word behind the method and one more character, whatever blanks are before it, cut at 1023 characters and sanitised |
| AuthLink.PathFromBehind | libhttpd/api.c:417-446 | Of a line that is only its method it is the first word of the text behind |
| AuthLink.OtherMethodRefused | libhttpd/api.c:417-433 | Any other word where the method should be is refused |
| AuthLink.QueryRoundTrip | libhttpd/protocol.c:340-404 | Any list of encoded fields is read back field by field |
| AuthLink.MakeAuthTarget | src/http.c:656-687 | The link is built from address, directory and the two encoded fields |
| AuthLink.UrlEncode | libhttpd/api.c:52-71 | The loop over blanks changes nothing after the encoder |
| AuthLink.DecodeAuthTarget | src/http.c:587-633 | Token and redirection are the first values under their names, or empty, and the link is built from them; user name, password, info and voucher are the first values under theirs, if any |
| Base64.Base64RoundTrip | libhttpd/protocol.c:200-277 | The standard encoding (section 4 of RFC 4648) of any bytes is decoded with no store outside the output buffer if and only if its whole groups and the NUL behind the bytes fit; then the buffer holds exactly the bytes and a NUL, and their number is returned |
| Base64.StaysInside | libhttpd/protocol.c:239-276 | On any text the stores stay inside the buffer if and only if the groups of the alphabet run fit and leave room for the NUL or end in an unfinished group |
| Base64.EncodingFits | libhttpd/protocol.c:239-276 | For an encoding that means that its bytes fit |
| Base64.LettersAre | libhttpd/protocol.c:205-211 | The letters of the encoding are those of table 1 of RFC 4648 |
| Base64.LongCredentialsOverrun | libhttpd/api.c:497-503 | Credentials overrun the buffer of a hundred characters if and only if they have a hundred or more |
| Base64.OneByteOverruns | libhttpd/protocol.c:249-263 | A concrete failure: for one byte three are written where there is room for one |
| Base64.EncodedGroups | libhttpd/protocol.c:255-273 | What the decoder finds in an encoding: the alphabet run, the groups, and whether the last one is padded once or twice |
| Base64.HttpdDecode | libhttpd/protocol.c:200-277 | On any text the procedure returns the specified count, reports a store outside the buffer, and else leaves the specified bytes |

## Left out

- Sockets, processes, DNS, signals, logging, page templates and file serving.
- Iptables command failure and retry: commands succeed. Only the net effect of the two test rules of the mark-masking check is modelled.
- Iptables command text: commands are data. The rules are those the texts denote; a target that the kernel would refuse in the nat table is accepted.
- The walk of a packet has a depth bound, which the kernel's own check for loops provides; every theorem holds for any bound that covers the program's own chains.
- Marks and byte counters are unbounded numbers; the width of a kernel mark appears only where there is no mark masking.
- Traffic control: it is off.
- The history fields of the byte counters, which the program never sets, and the total counters.
- A counter listing that cannot be read: such a pass changes nothing and does not count as successful.
- MAC addresses are values: their text forms, letter case and the format check are not modelled. An argument that is not an address is an absent value.
- Remote token verification and the centre server client: authentication is a step that may happen at any time. Making and looking up client tokens.
- Duplicate checks and formats in the add functions of the configuration lists: the model records the texts handed to them, in order. Putting the free addresses into the preauthenticated ruleset.
- ConfigServer.Loader.ConfigFromServer: the codes -1 to -3 are failures of the network before there is a body to read; `atoi` is on unbounded numbers.
- RuleText.RuleSet.ParseFirewallRule: words are values; the NUL characters the macro writes between them are not modelled.
- HttpRequest.Request.ReadRequest: the words of the first line are cut from its text and not in its buffer; text that no NUL ends is read to the end of the buffer, and a line whose NUL goes past it is read as the buffer.
- HttpRequest.Request.TakeCredentials: what stands behind the line buffer is read as NUL; credentials whose decoding writes outside its buffer set nothing. The length of the decoded text, which is read only by a routine that nothing calls, is not kept.
- HttpReader.Reader.ReadChar: a network read that fails is not distinguished from the end of the stream.
- HttpRequest.Request.AddVariable: the two-dimensional list is a sequence of names with sequences of values.
- Base64.HttpdDecode: a store outside the output buffer is reported and not carried out; the text must go on behind its alphabet run as far as the last group is read.
- Memory management: nodes are collected; the shape of the client list is kept.
- Command-line parsing, status text, the control client, access control lists, thread counters.
