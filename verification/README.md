# SwitchDeck in Dafny

SwitchDeck collects the state of small managed switches by reading their web pages, and configures them by
posting forms. This project models the parts of it where a mistake is easy to make and hard to see, and proves
what those parts are for:

- **The page reader.** A switch page is a script with declarations such as `var qvlan_ds = {vids:[0x1, 2]};`.
  `ExtractVar` cuts a declared value out with three regular expressions (`ExtractVar.dfy`), and `JSToJSON`
  turns it into JSON with one more expression and two hand-written scanners (`NewArray.dfy`, `HexScan.dfy`,
  `KeyScan.dfy`, `Literals.dfy`). `JsText.dfy` is a grammar of the literals with their layout, `Meaning.dfy` a
  parser with two dialects, JSON and page script, and `Rewrite.dfy` follows a literal through the three passes.
  `HexFixpoints.dfy` and `ArrayLimits.dfy` say exactly when a pass keeps to what it should touch,
  `RewriteLimits.dfy` when the whole rewrite does, and `ExtractLimits.dfy` when a value is cut out whole.
  The main result is `JsToJson.MeaningPreserved`; `Pages.ReadsDeclared` joins it with extraction, and
  `Unmarshal.dfy` reads the JSON into structs and lists.
- **The worker pool.** One goroutine polls each switch while API calls add, remove, update and collect.
  `Pool.dfy` is a state machine whose steps lie between lock operations, so its runs are all interleavings;
  `PoolRuns.dfy` and `PoolMarks.dfy` hold the results about them, and `Manager.dfy` the locked sections on the
  objects they update in place.
- **Reachability.** `Ping.dfy`: a failure counter, a threshold, transitions, and any number of probes in flight.
- **The configuration codecs.** What a `Set...` action sends and the matching page parser reads back, with a
  switch that shows what it was sent: bit masks (`Masks.dfy`), VLANs (`Vlans.dfy`), strided arrays
  (`Strided.dfy`), trunk groups and mirroring (`Groups.dfy`). `Pages.BandwidthEndToEnd`,
  `VlanPages.SetAndParse` and `GroupPages.SetAndParse` run an array and two objects through the text of any page
  that shows them; `ObjectPages.dfy` is what the last two share.
- **Backup, sessions and pacing.** `Backup.dfy` and `BackupRoundTrip.dfy`, `Session.dfy`, `Pacing.dfy`.

`Text.dfy`, `Numbers.dfy` and `Wrappers.dfy` are shared helpers.

Methods follow the source's loops and updates and are tied by their contracts to functions; the lemmas are about
those functions. In `Pool.dfy` and `Ping.dfy` a run is a sequence of actions, `Run` gives the state it leads to,
and a result about "every interleaving" is a lemma about every such sequence.

What enters as a parameter: `unicode.IsLetter` and `IsDigit` (fixed on ASCII only), the clock, probe results,
what the network answers, which exchanges with the database go through, nonces, new channel ids, the cipher (assumed
only to decrypt what it encrypted) and the message authentication code (nothing is assumed of it). Reading JSON into Go
values follows `encoding/json` of the Go release that go.mod names: `null`, repeated fields, folded field names, escapes.

## Where the code is not what its comments or callers suggest

The model follows the code.

- A mark set before `CollectNow` stays for ever if the lookup fails, because the early return precedes the
  deferred delete. Triggering a collection of a stored but disabled switch is enough: `PoolMarks.TriggerUnpooledSticks`,
  `PoolMarks.StuckForever`. The exact state of a mark is `PoolMarks.MarkLeftIff`.
- Transitions are decided in order but can be delivered out of order, because `doPing` gives the lock up before
  the callback: `Ping.DeliveryCanReorder`. The order is safe exactly while at most one probe stands between its
  decision and its callback: `Ping.DeliveryOrderIff`. (Its comment says that the callback runs in a new goroutine; it is
  called inline.)
- A hexadecimal literal too large for 64 bits is not always left unchanged: if its last digit is `0` and an `x`
  follows, that digit starts another literal. `HexScan.OverflowingLiteral` gives both cases, and
  `HexFixpoints.OverflowingLiteralChanges` inputs of the second. For the same reason a second scan can change the
  text again; `HexFixpoints.PassIdempotentIff` says exactly when.
- The rewrite is not confined to what it should touch: a hexadecimal literal inside a key is converted
  (`JsToJson.HexInKey`), and constructor text inside strings is replaced (`JsToJson.ConstructorInStrings`). Exactly
  when this happens: `HexFixpoints.TextKeptIff` and `RewriteLimits.RewritesTextIff`.
- A value ends for `ExtractVar` at the first closing character before white space and a semicolon, even inside a
  string, and a scalar that only begins like a constructor can swallow what follows. `ExtractLimits.ExtractsWholeIff`
  says exactly which declarations are cut out whole.
- Restoring a backup that lacks a setting keeps the target's own value, so settings come back exactly under the
  condition of `BackupRoundTrip.SettingsBackIff`; `BackupRoundTrip.TargetSettingSurvives` says what stays.
- A setting whose read fails is taken for one that is not set, so an export can succeed without it:
  `Backup.Database.ExportSettings`.
- The fallback for a token without a creation time does not take effect: a time that is missing from the file is
  read as the year 1, whose Unix time is not 0, and is stored as it is. Only second 0 of 1970 is replaced by the
  present (`Backup.Database.InsertToken`).
- `SetBandwidth` never clears a port's flag, so the flags of repeated entries are combined while their rates are
  overwritten: `Strided.BandwidthRoundTrip`.
- A user name with a `|` signs but never parses: `Session.SessionRoundTrip`.
- `GetSnapshot` is documented with a 2-second delay between pages; the code pauses 200 ms, and 1.5 s after every
  sixth page.

## Model

| member | source | states |
|---|---|---|
| Literals.ScanLiteral | internal/switchclient/tplink/parser/parser.go:75-93 | the inner loop copies a string literal, escapes included, and stops behind its closing quote or at the end of the text |
| Literals.LiteralIsWhole | internal/switchclient/tplink/parser/parser.go:75-93 | whatever follows a complete literal, the scanner takes exactly that literal |
| Literals.CutIsLiteral | internal/switchclient/tplink/parser/parser.go:75-93 | what the scanner takes is a literal: quotes only at the ends or escaped, open only at the end of the text |
| NewArray.MatchedIff | internal/switchclient/tplink/parser/parser.go:12 | the matcher accepts exactly where the expression has a match, and takes the shortest |
| NewArray.ReplacesFirstMatch | internal/switchclient/tplink/parser/parser.go:51-57 | the leftmost lazy match of the expression is replaced and the scan goes on behind it |
| NewArray.NoMatchIff | internal/switchclient/tplink/parser/parser.go:51-57 | the texts the pass leaves alone are exactly those without a match |
| HexScan.ConvertHexOutsideStrings | internal/switchclient/tplink/parser/parser.go:70-113 | the loop computes the recursive pass that the results below are about |
| HexScan.NextPiece | internal/switchclient/tplink/parser/parser.go:75-110 | one round of the loop takes one literal, one number or one character, and the pass goes on behind it |
| HexScan.PassIsTokenwise | internal/switchclient/tplink/parser/parser.go:70-113 | on any reading as tokens: strings verbatim, each maximal hexadecimal literal below 2^63 as the decimal of equal value, the rest unchanged |
| HexScan.LexingExists | internal/switchclient/tplink/parser/parser.go:70-113 | every text has such a reading |
| HexScan.LexingUnique | internal/switchclient/tplink/parser/parser.go:70-113 | and only one, so the token-by-token statement determines the result |
| HexScan.OverflowingLiteral | internal/switchclient/tplink/parser/parser.go:101-110 | the exact result for a literal of 2^63 or more, in both of its cases |
| HexScan.HexInsideIdentifier | internal/switchclient/tplink/parser/parser.go:95 | the character before a literal is not looked at: `a0x1` becomes `a1` |
| HexScan.PassIdempotent | internal/switchclient/tplink/parser/parser.go:70-113 | a condition on the text alone that suffices for idempotence: no literal is directly followed by `x` or `X` |
| HexScan.PassNotIdempotent | internal/switchclient/tplink/parser/parser.go:70-113 | without that condition it can: `0x0x5` |
| HexFixpoints.PassIdempotentIff | internal/switchclient/tplink/parser/parser.go:70-113 | a second pass changes nothing if and only if no literal of a value divisible by 10 is followed by an `x` that, with the images behind it, completes its last zero to a literal |
| HexFixpoints.FixpointIff | internal/switchclient/tplink/parser/parser.go:70-113 | the texts the pass leaves alone are exactly those without a convertible literal outside strings |
| HexFixpoints.NoShift | internal/switchclient/tplink/parser/parser.go:70-113 | the pass never produces its input behind zeros and `x`s, the one way in which a conversion could go unnoticed |
| HexFixpoints.TextKeptIff | internal/switchclient/tplink/parser/parser.go:95-108 | a key, or any text without quotes, stays as it is if and only if no convertible literal begins in it |
| HexFixpoints.OverflowingLiteralChanges | internal/switchclient/tplink/parser/parser.go:101-110 | inputs on which an overflowing literal does change: `0x8`, sixteen or more zeros, and `x5` |
| KeyScan.MeasureRun | internal/switchclient/tplink/parser/parser.go:149-157 | the index loops stop behind the maximal run of characters of a class |
| KeyScan.NextPiece | internal/switchclient/tplink/parser/parser.go:126-179 | one round of the loop takes one literal, one key with its colon or one character |
| KeyScan.QuoteUnquotedKeys | internal/switchclient/tplink/parser/parser.go:121-181 | the loop computes the recursive pass that the results below are about |
| KeyScan.PassConserves | internal/switchclient/tplink/parser/parser.go:121-181 | the output is the input with quotes inserted and nothing else changed, for every text |
| KeyScan.FixpointIff | internal/switchclient/tplink/parser/parser.go:121-181 | the texts the pass leaves alone are exactly those without a bare key outside strings |
| KeyScan.PassLeavesNoBareKey | internal/switchclient/tplink/parser/parser.go:121-181 | the output has no bare key |
| KeyScan.PassIdempotent | internal/switchclient/tplink/parser/parser.go:121-181 | a second pass changes nothing, on every text, unterminated strings and `::` included |
| Rewrite.ArraysOfValue | internal/switchclient/tplink/parser/parser.go:51-57 | the first pass turns a literal's text into the same literal with brackets for constructors, and goes on behind it |
| ArrayLimits.ArraysOfValueIff | internal/switchclient/tplink/parser/parser.go:12 | the first pass does so, whatever follows, if and only if no constructor holds a closing parenthesis and no head in a string is closed by one behind it |
| ArrayLimits.ValueBreaks | internal/switchclient/tplink/parser/parser.go:51-57 | otherwise the damage is in the literal itself: its text after the pass and its spelling go on with different marks behind a common prefix, whatever is compared behind it |
| Rewrite.HexOfValue | internal/switchclient/tplink/parser/parser.go:70-113 | the second pass turns every number of a literal into decimal and touches nothing else of it |
| Rewrite.KeysOfValue | internal/switchclient/tplink/parser/parser.go:121-181 | the third pass quotes every bare key of a literal and touches nothing else of it |
| Meaning.ParsesValue | internal/switchclient/tplink/parser/parser.go:45-66 | the spelling of a literal in either dialect, followed by any delimiter, reads as the literal's value |
| JsToJson.JSToJSON | internal/switchclient/tplink/parser/parser.go:47-66 | trims, then runs the three passes in this order |
| JsToJson.RewritesText | internal/switchclient/tplink/parser/parser.go:47-66 | the rewrite of any spelling of a literal is the JSON spelling of the same tree, layout included |
| RewriteLimits.RewritesTextIff | internal/switchclient/tplink/parser/parser.go:47-66 | and it is so if and only if no parenthesis misleads the first pass: the later passes never repair it |
| RewriteLimits.StillPart | internal/switchclient/tplink/parser/parser.go:58-66 | texts that part for good before the two scanners part for good behind them |
| JsToJson.MeaningPreserved | internal/switchclient/tplink/parser/parser.go:47-66 | for every value tree and every spelling: the page's reading is the JSON reading of the rewrite |
| JsToJson.NestedConstructor | internal/switchclient/tplink/parser/parser.go:12 | why constructors must not be nested: the inner parenthesis closes the outer one |
| JsToJson.ConstructorInStrings | internal/switchclient/tplink/parser/parser.go:47-66 | why constructor text must not stand in strings: the whole rewrite replaces it there |
| JsToJson.HexInKey | internal/switchclient/tplink/parser/parser.go:95-108 | why keys must not hold a literal: the key changes its name |
| ExtractVar.ExtractsDeclared | internal/switchclient/tplink/parser/parser.go:26-43 | from a script of declarations with distinct names each name gets exactly its declared value, by whichever expression applies |
| ExtractVar.ExtractsNothing | internal/switchclient/tplink/parser/parser.go:26-43 | a name that is not declared gives the empty string |
| ExtractLimits.ExtractsWholeIff | internal/switchclient/tplink/parser/parser.go:26-43 | the declared text, whatever it is, is extracted whole if and only if an object or array has no early end, a text that only begins like a constructor is not closed further on, any other has no `;`, `{` or line break, and no white space stands at its ends |
| ExtractLimits.ExtractShape | internal/switchclient/tplink/parser/parser.go:26-43 | from any script at all: no white space at the ends, and the shape of an object, of a constructor or of a scalar |
| ExtractVar.LazyCloseAt | internal/switchclient/tplink/parser/parser.go:28-33 | the lazy tail ends at the declared end if nothing inside ends it early |
| ExtractLimits.LazyCloseEarly | internal/switchclient/tplink/parser/parser.go:28-33 | and before it otherwise |
| ExtractVar.FindAbsent | internal/switchclient/tplink/parser/parser.go:28-40 | no expression matches anywhere in a script that does not declare the name |
| Pages.ReadsDeclared | internal/switchclient/tplink/parser/vlans.go:23-30 | extraction, rewriting and JSON reading together return what the script says, for every well-formed script and declared literal |
| Pages.ArrayArrives | internal/switchclient/tplink/parser/qos.go:48-55 | from any script that declares a literal standing for some numbers, those numbers are read |
| Pages.ArrayOfIs | internal/switchclient/tplink/helpers.go:27-29 | the joined printed numbers are such a literal, and alone on their line meet every condition |
| Pages.BandwidthEndToEnd | internal/switchclient/tplink/actions.go:146-166 | a bandwidth form, shown in any script by any literal that stands for its slots, gives each port its last rates and the disjunction of its flags |
| Unmarshal.DecodesFields | internal/switchclient/tplink/parser/vlans.go:11-20 | an object that shows some fields of a struct once each, in any order, sets exactly those |
| Unmarshal.SpellingMeans | internal/switchclient/tplink/parser/vlans.go:17 | every text can be written as a string literal, and reading undoes it |
| VlanPages.ParseVLAN8021Q | internal/switchclient/tplink/parser/vlans.go:22-62 | on the text of a page: an error exactly if the variable is missing, is not JSON or does not fit the struct (nulls, repeated fields and escapes as the decoder takes them), and otherwise every entry as decoded |
| VlanPages.PageArrives | internal/switchclient/tplink/parser/vlans.go:22-30 | from any script that declares a literal standing for a table, that table is read |
| VlanPages.LiteralMeans | internal/switchclient/tplink/parser/vlans.go:11-20 | every table, with any names in any of their spellings, has such literals |
| VlanPages.PlainPageShows | internal/switchclient/tplink/parser/vlans.go:22-30 | with plain names the literal, alone on its line, meets every condition |
| VlanPages.SetAndParse | internal/switchclient/tplink/actions.go:40-59 | a VLAN list sent as a form, shown in any script by any literal that stands for it, and parsed from the page text gives back ids, names and modes in order |
| GroupPages.ParsePage | internal/switchclient/tplink/parser/lag.go:20-59 | on the text of a page: an error exactly if the variable is missing, is not JSON or does not fit the struct, and otherwise the groups of its vectors |
| GroupPages.SetAndParse | internal/switchclient/tplink/actions.go:95-118 | trunk groups sent as vectors, shown in any script by any literal that stands for them, come back as the two unions |
| GroupPages.PlainPageShows | internal/switchclient/tplink/parser/lag.go:11-16 | every pair of vectors has such a literal, which alone on its line meets every condition |
| PoolRuns.PoolSafety | internal/manager/manager.go:84-116 | in every interleaving: a stop channel is closed at most once, `workers[id].cfg.ID == id`, a pooled worker is running and open, no two removals hold one worker, and every worker is pooled, held or stopped |
| PoolRuns.OneWorkerPerSwitch | internal/manager/manager.go:119-124 | two running loops of one switch mean that a removal is stopping one of them, although Update removes and adds separately |
| PoolRuns.RemovedIsSilent | internal/manager/worker.go:67-70 | after a removal returns, its worker never calls `onSnap` again and never returns to the pool |
| PoolRuns.RemovalCanReturn | internal/manager/worker.go:121-158 | from every waiting removal three turns of its own worker suffice |
| PoolRuns.RemovalReturns | internal/manager/worker.go:146-157 | in every continuation the loop has exited after five turns, and four more for each tick its select prefers to the closed channel |
| PoolRuns.CacheStep | internal/manager/worker.go:160-190 | in every interleaving `last` never returns to nil, carries its switch's id, and changes only by a store for that worker: whole, counters only, or ports only |
| PoolRuns.StepView | internal/manager/manager.go:175-203 | the exact cached snapshot of every worker after every kind of step |
| Pool.ChangeLastView | internal/manager/worker.go:181-186 | an in-place change shows in one cache only: no two workers share a snapshot |
| PoolRuns.LateStoreIsHarmless | internal/manager/manager.go:156-205 | a CollectNow or RefreshPorts that outlives its worker's removal changes no pooled worker's cache |
| Pool.CallKeepsCustody | internal/manager/manager.go:84-124 | each step of a call hands a worker from the map to one removal and from there to nobody |
| Pool.LoopKeepsCustody | internal/manager/worker.go:121-158 | a loop exits only after its stop channel was closed |
| Pool.CallKeepsMarks | internal/manager/manager.go:139-179 | a mark that no failed lookup left behind belongs to a collection that will still clear it |
| Pool.CallMarks | internal/manager/manager.go:139-164 | exactly which steps set, keep and clear a mark, and that no other step of a call touches it |
| PoolRuns.RunKeepsInv | internal/manager/manager.go:84-205 | the invariants hold after every run |
| PoolMarks.MarkLeftIff | internal/manager/manager.go:156-179 | once no collection of a switch is pending or running, the mark is there, and Status says collecting, if and only if some lookup found the marked switch not pooled and no collection of it has ended since |
| PoolMarks.MarksClear | internal/api/handlers/switches.go:229-246 | if the switch is pooled whenever it is looked up, no mark outlives its collections |
| PoolMarks.NeverStuck | internal/manager/manager.go:157-164 | such lookups leave no mark behind |
| PoolMarks.TriggerUnpooledSticks | internal/api/handlers/switches.go:229-246 | from every state in which a switch has no worker, no mark and no call that would give it one, a trigger that finds it in the store leaves a mark that nothing under way will clear |
| PoolMarks.StuckForever | internal/api/handlers/switches.go:235-241 | such a mark stays in every continuation that does not add the switch again, and Status reports collecting throughout |
| Manager.Manager.Add | internal/manager/manager.go:84-102 | refuses a known id and otherwise adds one fresh worker with an empty cache, changing no other |
| Manager.Manager.TakeOut | internal/manager/manager.go:105-113 | removes exactly the switch's entry and hands its open worker to the caller |
| Manager.Manager.StoreSnapshot | internal/manager/manager.go:174-177 | points the worker at a fresh snapshot with its id; other caches are unchanged |
| Manager.Manager.StoreStats | internal/manager/worker.go:181-186 | changes only the counters of the worker's own snapshot, and only if there are any |
| Manager.Manager.StorePorts | internal/manager/manager.go:199-203 | changes only the ports of the worker's own snapshot, if there is one |
| Manager.Manager.CollectNow | internal/manager/manager.go:156-179 | run alone: a failed lookup changes nothing, not even a mark; otherwise the mark is cleared and only success changes the cache |
| Manager.Manager.LastSnapshot | internal/manager/manager.go:208-220 | the cached snapshot of a pooled switch, which carries that switch's id, or an error if there is none |
| Manager.Manager.Status | internal/manager/manager.go:223-240 | collecting before offline before online, each exactly under its condition |
| Ping.Prober.Record | internal/manager/worker.go:94-118 | one pass of the critical section keeps the fields those of the history, which it extends, and fires exactly the transition that the history gains |
| Ping.Prober.IsDown | internal/manager/worker.go:81-85 | true if and only if the recorded history ends in at least two failures |
| Ping.AfterIs | internal/manager/worker.go:96-113 | over every probe history the counter is the trailing failure run and all flags follow from it |
| Ping.OnePerRun | internal/manager/worker.go:110-118 | one offline per maximal failure run that reaches the threshold, one online per such run that ended; the difference is 1 exactly while down |
| Ping.EventsAlternate | internal/manager/worker.go:110-118 | transitions alternate, starting with offline |
| Ping.Linearizes | internal/manager/worker.go:91-119 | with any number of probes in flight, whenever the mutex is free the fields are those of the recorded history and the flags agree with the threshold |
| Ping.DecidedAlternate | internal/manager/worker.go:110-118 | decided transitions alternate in every interleaving, at every moment |
| Ping.AllDelivered | internal/manager/worker.go:115-117 | once all probes returned, each decided transition was delivered exactly once |
| Ping.NoDeadlock | internal/manager/worker.go:94-118 | while a probe has not returned, some probe can take a step |
| Ping.Pass | internal/manager/worker.go:94-118 | an undisturbed pass through the interleaved machine does what the sequential section does |
| Ping.DeliveryCanReorder | internal/manager/worker.go:115-117 | a run in which "online" is delivered before the "offline" it follows |
| Ping.DeliveryOrderIff | internal/manager/worker.go:110-118 | in every run: whichever callback comes next at any moment, deliveries follow the decided order, if and only if never two probes stand between their decision and their callback |
| Ping.InOrderIfOne | internal/manager/worker.go:110-118 | with at most one callback outstanding throughout, the deliveries are the decisions up to that one |
| Ping.WrongDelivery | internal/manager/worker.go:115-117 | with two outstanding, one of them delivered next breaks the order |
| Masks.SetsBit | internal/switchclient/tplink/actions.go:47-53 | or-ing `1 << n` sets exactly bit n, and nothing from the word's width on |
| Masks.TestsBit | internal/switchclient/tplink/parser/vlans.go:49-51 | `mask & bit != 0` tests exactly that bit |
| Masks.SameBits | internal/switchclient/tplink/actions.go:45-54 | a mask is determined by its bits, so the order of or-ing does not matter |
| Vlans.MasksOf | internal/switchclient/tplink/actions.go:45-54 | the masks of a membership map, for every order in which the map is visited |
| Vlans.SetVLANs | internal/switchclient/tplink/actions.go:40-59 | the complete form for a VLAN list |
| Vlans.FieldsAt | internal/switchclient/tplink/actions.go:43-56 | every field of the finished form holds its own VLAN's value: no field overwrites another |
| Vlans.ParseVLAN8021Q | internal/switchclient/tplink/parser/vlans.go:31-61 | every entry by its position, short name and mask lists filled up with defaults |
| Vlans.RoundTrip | internal/switchclient/tplink/actions.go:40-59 | ids, names and modes come back in order; ports that are unlisted or beyond bit 63 become excluded |
| Vlans.NormalIsSame | internal/switchclient/tplink/parser/vlans.go:48-58 | members come back unchanged if and only if exactly the switch's ports are listed and those beyond the word are excluded |
| Vlans.ReEncoded | internal/switchclient/tplink/parser/vlans.go:48-58 | encoding what was decoded from arbitrary masks gives the low port bits of tag, and of untag minus tag |
| Vlans.ParseVLANPortBased | internal/switchclient/tplink/parser/vlans.go:82-102 | members of the mask are untagged, all other ports excluded |
| Vlans.PortBasedIsUntagged | internal/switchclient/tplink/parser/vlans.go:93-99 | a port-based table written back as 802.1Q tags nothing and keeps its members |
| Strided.SetBandwidth | internal/switchclient/tplink/actions.go:146-161 | the loop over any list, with duplicates and invalid ports, against the slots stated per port |
| Strided.ParseBandwidth | internal/switchclient/tplink/parser/qos.go:57-68 | stride 3, with defaults where the array is too short |
| Strided.LastForIs | internal/switchclient/tplink/actions.go:151-161 | "last entry for a port" is an entry for it with no other behind it |
| Strided.BandwidthRoundTrip | internal/switchclient/tplink/actions.go:146-166 | last rates, disjunction of all flags, nothing past port 8 |
| Strided.BandwidthResubmit | internal/switchclient/tplink/parser/qos.go:57-68 | sending back what was read restores every slot, flags normalised to 0 or 1 |
| Strided.SetStormControl | internal/switchclient/tplink/actions.go:169-182 | the loop against the slots stated per port |
| Strided.ParseStormControl | internal/switchclient/tplink/parser/qos.go:84-95 | stride 3, with zeros where the array is too short |
| Strided.StormRoundTrip | internal/switchclient/tplink/actions.go:169-187 | each port's last entry, or zeros |
| Strided.StormResubmit | internal/switchclient/tplink/parser/qos.go:84-95 | sending back what was read changes no slot of a port |
| Strided.SetQoS | internal/switchclient/tplink/actions.go:121-137 | the mode code reads back as the mode, any other string as 802.1p, and the priorities are the last entries or 1 |
| Strided.ParseQoSBasic | internal/switchclient/tplink/parser/qos.go:30-41 | one priority per port, 1 where the array is too short |
| Strided.PriorityRoundTrip | internal/switchclient/tplink/actions.go:121-143 | each port's last entry, or 1 |
| Strided.ParsePortStats | internal/switchclient/tplink/parser/ports.go:131-144 | stride 4 without an access out of bounds, for every array length |
| Strided.CountersRoundTrip | internal/switchclient/tplink/parser/ports.go:131-144 | of a table cut off anywhere exactly the complete rows come back, reinterpreted as unsigned |
| Groups.SetLAG | internal/switchclient/tplink/actions.go:95-112 | both membership vectors, through the aliased target array |
| Groups.MemberPorts | internal/switchclient/tplink/parser/lag.go:36-44 | the listed ports, ascending, up to the port count and the vector's end |
| Groups.ParseLAG | internal/switchclient/tplink/parser/lag.go:32-58 | the groups of the two vectors, empty ones dropped |
| Groups.LagRoundTrip | internal/switchclient/tplink/actions.go:95-118 | id 2 and all other ids together each give the ascending union of their in-range ports |
| Groups.LagIdentityIff | internal/switchclient/tplink/parser/lag.go:32-58 | for every port count: on canonical lists the round trip is the identity on ids and ports if and only if it covers every listed port |
| Groups.PortsWhereIs | internal/switchclient/tplink/parser/lag.go:36-44 | the ports are strictly ascending and exactly those asked for |
| Groups.SetPortMirror | internal/switchclient/tplink/actions.go:62-92 | the form as sent, with mode code and both masks in decimal, for every mode |
| Groups.ParsePortMirror | internal/switchclient/tplink/parser/monitoring.go:36-69 | the union of both vectors, ascending, with the port count taken from the ingress vector |
| Groups.MirrorRoundTrip | internal/switchclient/tplink/actions.go:62-92 | for every number of ports, through the decimal form: sources with a bit come back ascending and without duplicates for each valid mode; an unknown mode loses them |
| Backup.Database.Export | internal/backup/backup.go:83-168 | whatever reads fail: a file holds every row once in plain text and no setting that is not set; on a healthy connection it exists exactly if everything decrypts, with all settings |
| Backup.Database.ListSwitches | internal/store/store.go:141-159 | every switch once, or an error if the query, a row or the end of the rows fails or a password does not decrypt |
| Backup.Database.ListTokens | internal/backup/backup.go:118-135 | every token once, with its hash, or an error if reading fails anywhere |
| Backup.Database.ListChannels | internal/notification/store.go:64-81 | every channel once, or an error if reading fails anywhere or a configuration does not decrypt |
| Backup.Database.ListPortNames | internal/store/store.go:332-349 | exactly the names of that switch, or an error if reading fails anywhere |
| Backup.Database.ExportSettings | internal/backup/backup.go:92-100 | the listed keys that have a value and could be read; all of them if no read failed |
| Backup.Database.ExportPortNames | internal/backup/backup.go:156-165 | the names of each exported switch, switches without names left out, or an error if a read fails |
| Backup.Database.GetSetting | internal/store/store.go:101-108 | the stored value; a missing key and a failed read are the same error |
| Backup.Database.AddSwitch | internal/store/store.go:117-131 | inserts a row whose password decrypts to the given one, or changes nothing; fails on a used id |
| Backup.Database.InsertToken | internal/backup/backup.go:217-226 | inserts unless id or hash is taken; creation second 0 becomes the present |
| Backup.Database.CreateChannel | internal/notification/store.go:32-55 | inserts under a new id and time unless the name is taken |
| Backup.Database.SetSetting | internal/store/store.go:110-115 | upserts one key |
| Backup.Database.SetPortName | internal/store/store.go:315-321 | upserts one name, subject to the foreign key if it is enforced |
| Backup.Database.Wipe | internal/backup/backup.go:181-192 | each table is untouched or empty at every failure point |
| Backup.Database.RestoreSettings | internal/backup/backup.go:195-201 | changes only the three listed keys, at every failure point |
| Backup.Database.RestoreSwitches | internal/backup/backup.go:204-214 | on success the table is exactly the file's list, on failure every row is from it |
| Backup.Database.RestoreTokens | internal/backup/backup.go:217-230 | likewise for tokens |
| Backup.Database.RestoreChannels | internal/backup/backup.go:233-247 | likewise for channels |
| Backup.Database.RestorePortNames | internal/backup/backup.go:250-256 | likewise for port names, in whatever order the maps are visited |
| Backup.Database.Restore | internal/backup/backup.go:173-259 | a wrong version changes nothing; other settings never change; after the wipes every row is from the file; success means exactly the file; an importable file on a healthy connection succeeds |
| Backup.MergeFrame | internal/backup/backup.go:195-201 | settings outside the three keys are unchanged, inside they are the old or the file's |
| BackupRoundTrip.ExportIsImportable | internal/backup/backup.go:83-168 | restoring an export meets no key, unique or foreign-key violation |
| BackupRoundTrip.RoundTrip | internal/backup/backup.go:173-259 | for every source, target and pair of keys: re-export gives the same switches with passwords and the same port names, tokens up to creation second 0, channels up to ids and times, as multisets, and the same settings under the exact condition |
| BackupRoundTrip.Move | internal/backup/backup.go:83-259 | export, restore and export run one after the other: if the source exports, a healthy target with a usable key restores it, exports, and gives back what came |
| BackupRoundTrip.SettingsBackIff | internal/backup/backup.go:195-201 | settings come back equal if and only if the target had no exported setting that the source lacks |
| BackupRoundTrip.TargetSettingSurvives | internal/backup/backup.go:195-201 | a setting that the file lacks keeps the value it has in the target |
| BackupRoundTrip.TargetPasswordSurvives | internal/backup/backup.go:195-201 | so after a backup without settings a password hash is what the target exports, and nothing else |
| BackupRoundTrip.NamesBack | internal/backup/backup.go:250-256 | port names come back exactly |
| Session.Base64RoundTrip | internal/auth/auth.go:49-55 | base64url of RFC 4648, section 5: decoding undoes encoding, and no dot is ever produced |
| Numbers.ParsePrinted | internal/auth/auth.go:80 | signed 64-bit printing and parsing are inverse |
| Session.PayloadRoundTrip | internal/auth/auth.go:76-87 | the payload splits at the right bar exactly if the name has none |
| Session.SessionRoundTrip | internal/auth/auth.go:49-88 | a signed session parses to its name if and only if the name has no bar and the expiry has not passed, with the exact error otherwise |
| Session.AcceptedIsSigned | internal/auth/auth.go:58-88 | an accepted token carries the code of its own payload, an unexpired time and a name without a bar |
| Pacing.GetSnapshot | internal/switchclient/tplink/snapshot.go:46-69 | the snapshot is the fold of the pages reached and the pauses are the prescribed ones, for every point of cancellation |
| Pacing.TotalDelay | internal/switchclient/tplink/snapshot.go:42-67 | n pages take 200(n-1) + 1300 floor((n-1)/6) ms of pauses |
| Pacing.BurstsAreShort | internal/switchclient/tplink/snapshot.go:38-62 | any seven consecutive requests have a long pause among them, and batches of six have none |
| Pacing.FoldSections | internal/switchclient/tplink/snapshot.go:90-137 | a section shows the last page that filled it; failed pages change nothing |
| Pacing.FoldVlans | internal/switchclient/tplink/snapshot.go:139-163 | port-based VLANs are used only if no 802.1Q table was found, in whatever order the pages come |

## Left out

- Text is a sequence of Unicode scalars. The byte scanner of `convertHexOutsideStrings` tests ASCII only, so it agrees on valid UTF-8; invalid UTF-8 is not modelled.
- JsToJson.MeaningPreserved: that an unsafe literal is not merely spelled but also read differently is not stated; that its rewrite differs is `RewriteLimits.RewritesTextIff`. Strings keep their escapes uninterpreted there, and literals have no numbers with a fraction or exponent, because the rewrite treats both as plain text.
- Unmarshal.DecodesFields: the decoder's limit on nesting (10000 levels) is not modelled.
- HexScan.PassIdempotent: the condition on the text is sufficient only; the exact one is on the tokens, in `HexFixpoints.PassIdempotentIff`.
- Invalid or negative port counts on a page: `make` with a negative length panics, so the parsers require a count of at least 0; ports below 1 panic in a shift, so the encoders of masks require at least 1.
- PoolRuns.PoolSafety: polling intervals are assumed positive, since a ticker with another interval panics; timers, TCP dialing, login requests and error callbacks are outcomes of a step, not modelled themselves.
- PoolRuns.CacheStep: each critical section is one step, so what a reader without the lock may see of a snapshot that is being changed is not described.
- Manager.Manager.CollectNow: the class describes sections run alone; what interleavings keep is stated in `PoolRuns` and `PoolMarks`.
- Backup.Database.Export: rows come in some order; the order by creation time, the snapshots table, cascades and the JSON text of the file, with its range of years, are not modelled.
- The cipher, the keyed hash, argon2 and SHA-256 are parameters; nothing about forgery is claimed.
- `ParsePortSettings`, the speed code tables, `ParseIGMP`, `ParseSystemInfo`, the switch and channel update and delete operations and the snapshot store: single-branch members that would add nothing hard.
- HTTP transport, cookies, routing, the web UI, metrics and notification senders.
