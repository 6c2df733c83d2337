# A verified model of the backend platform library

The library is mostly glue around other systems. Seven of its parts decide something on their own, and
this project models those and proves what they are for.

- **Plural operands and rules** (`Decimal`, `PluralOperands`, `PluralLiterals`, `PluralSigns`, `PluralRules`,
  `CldrRules`). A decimal literal is turned into the operands i, v, w, f, t and c by moving its decimal point on the string (UTS #35
  Part 3, section 5.1.1). Numbers are exact: a mantissa and a decimal scale. `PluralLiterals` says what the
  parser reads from a literal by the characters it is written with. The forty rule functions follow, and
  `CldrRules` has the CLDR conditions as data with the meaning section 5.1.2 gives them on the exact value.
- **Consul keys and nested maps** (`Paths`, `ConsulTree`, `ConsulSections`, `ConsulFlatten`,
  `ConsulText`, `ConsulRoundTrip`, `ConsulMerge`). `ConsulSections` has the nested maps as objects that are filled
  in place and ties them to the tree values of `ConsulTree`; the tree is described by what each path leads to.
  `ConsulText` says what the stored bytes of each kind of value mean to a reader who knows decimal notation.
  `ConsulMerge` merges two trees before flattening, which is what a bootstrap does after its read, and says
  under which keys listed entries are written back.
- **Bootstrap** (`Bootstrap`). Any number of instances, each with its prefix, insert their configuration file
  into one store; a step is a read, one create-if-absent request, or the end of the wait for all requests.
- **Layered configuration and its reload** (`ConfigLayers`, `ConfigReload`, `ConfigObjects`). `ConfigReload`
  is the protocol as a state machine: a step is one section under a lock, one channel operation, or one
  subscriber's turn. `ConfigObjects` has the configuration and the watchers as classes whose methods are
  proved to be those steps.
- **ICU plural messages** (`IcuOptions`, `IcuLayouts`, `IcuPlaceholders`, `IcuRewriting`, `Atoi`, `IcuMessage`,
  `IcuBodies`). The option scanner, the placeholder rewriting, and the fold of the options into a message,
  with `strconv.Atoi` as seen by a caller that ignores its error. `IcuLayouts`, `IcuRewriting` and `IcuBodies`
  say by the characters of a text which options or which error the scanner finds in it, what each piece of it is
  rewritten to, and what the message has in its fields.
- **Dependency injection** (`DiContainer`). The container as a class, its state machine, and what the order
  of registration does not change.
- **Translation tables** (`Translations`). The two conversions and their round trip.

Code the model cannot see is a parameter. `floatOk` is the verdict of `strconv.ParseFloat`. The answers of
refresh callbacks, of comparisons, of providers and of store requests are arguments of the steps. What a
component computes from the configuration and how it compares two results are the functions of `Components`.
Map iteration, channel timing and goroutine order are left open, so every claim holds for all of them.

## Where the code does less than its description

- `internal/pkg/localize/plural/operands.go:135`: negating the least int64 gives it back, so with that exponent
  nothing is shifted. `ShiftLaw` and `OperandsExact` state the exact condition, and `LeastExponent` shows
  that such literals parse, `1e-9223372036854775808` among them.
- `internal/pkg/localize/plural/operands.go:78`: the least int64 stays negative, its string is out of range.
  `IntAgreesWithString` holds for all other values and not for this one. Seven rules then return Other, ru among
  them, where the number without its sign is Many or Few (`LeastIntForms`).
- `internal/pkg/localize/plural/operands.go:141`: only a minus is taken off, and only one. A plus stays in front of
  the digits and is shifted with them, so `+1e-1` is refused (`OneTenth`); `PlusExact` gives the exact condition. A
  second minus makes the integer operand negative: `--5` has i = -5 (`SecondMinus`).
- `internal/pkg/config_provider/consul/convertor.go:21`: a key without the prefix is used as it is, so two
  different raw keys can be one path. `Confluence` gives the exact condition under which order is irrelevant,
  `RawKeyAmbiguous` the pairs that break it: `p/a` and `a` under the prefix `p`.
- `internal/pkg/consul/consul.go:55`: a listing matches the bare prefix, so with the prefix `app` it returns
  `app2/k` of another service as well, and a bootstrap writes that entry back as `app/app2/k`
  (`NeighbourCopied`, `NeighbourExample`). `ReadSideExact` says when a read leaves keys as they are,
  `NewEntriesFromFiles` when new entries come from files alone, `ReplicasConverge` what the store becomes and
  when the copies make no difference. Copies are not copied again (`SettledAfterSuccess`).
- `internal/pkg/config_provider/consul/convertor.go:82`: the error of an unsupported leaf is dropped with the
  leaf. Empty sections, names with a slash and a nameless leaf at the top do not come back either; `RoundTrip`
  shows that these are all the exceptions (`SlashNameLost` is one of them).
- `internal/pkg/localize/localize/icu_parser.go:21`: a carriage return is no blank although it is white space for
  the key, so options on indented lines that end in `\r\n` are an empty key (`CarriageReturn`).
- `internal/pkg/localize/localize/icu_parser.go:116`: the error of `Atoi` is ignored, so `=`, `=x` and `=-x`
  count as `=0`. `GarbageIsZero` says exactly which keys do: all but numbers other than zero and texts that
  begin with a number above the range of uint64, at which `Atoi` stops before it sees the garbage. A misspelt
  key takes the empty field (`NumberedKeyFills`) and keeps a `=0` behind it out (`GarbageBeatsZero`).
- `internal/pkg/config/config.go:139`: a provider loaded after Watch notifies nobody, so a subscriber stays
  out of date (`LateLoad`). `NoLostUpdate` is exact: in a quiet state a subscriber whose last refresh did not
  fail is up to date if and only if it was so when it subscribed or at the last load, or had a turn since.
- `internal/pkg/localize/localize/icu_parser.go:98-135`: the order of the options can matter. `OrderExact` says
  exactly when it does not.
- `internal/pkg/localize/localize/icu_parser.go:143`: a plural variable containing `#` makes the conversion
  change its own result (`ConvertIdempotent` gives the condition, `HashReplacedAgain` an input).
- `pkg/di/container.go:61`: a build never marks what it injected, so a service is injected once more for
  every failed build that found it waiting with all it needs (`CallsOfRun`). `ExactlyOnce` gives the condition
  on the builds, `InjectedTwice` a run that breaks it.

## Model

| member | source | states |
|---|---|---|
| PluralOperands.NewOperandsString | internal/pkg/localize/plural/operands.go:140-192 | the parser computes the specified operands, or fails exactly where they are undefined |
| PluralOperands.LastSignificant | internal/pkg/localize/plural/operands.go:171-176 | the backward loop finds the length of the fraction without its trailing zeros |
| PluralOperands.ReadUnsigned | internal/pkg/localize/plural/operands.go:144-191 | the parse after the sign, with the exponent errors |
| PluralOperands.ReadDigits | internal/pkg/localize/plural/operands.go:161-191 | the second half of the parse, from the digits around the point to the operands |
| PluralOperands.ShiftLeftParts | internal/pkg/localize/plural/operands.go:92-110 | which digits stand before and behind the point after a left shift |
| PluralOperands.ShiftRightParts | internal/pkg/localize/plural/operands.go:112-128 | which digits stand before and behind the point after a right shift |
| PluralOperands.ShiftLaw | internal/pkg/localize/plural/operands.go:92-138 | a shift multiplies the exact value by the power of ten and leaves max(0, digits - c) fraction digits, except for the least int64 and a value other than zero |
| PluralOperands.ShiftsCompose | internal/pkg/localize/plural/operands.go:92-138 | shifting twice has the value of shifting once by the sum |
| PluralOperands.LeftThenRight | internal/pkg/localize/plural/operands.go:92-128 | shifting left and back restores the fraction, and the integer part up to a known number of leading zeros |
| PluralOperands.OperandsExact | internal/pkg/localize/plural/operands.go:140-192 | for every literal that parses the operands satisfy their mutual laws and i + f / 10^v is the exact absolute value, except for the least int64 as exponent of a value other than zero |
| PluralOperands.LeastExponent | internal/pkg/localize/plural/operands.go:130-158 | any digits with the least int64 as exponent parse to the operands of the bare digits, which are inexact unless the number is zero |
| PluralOperands.ValueDeterminesOperands | internal/pkg/localize/plural/operands.go:13-21 | equal values have equal i, w and t, and v and f differ by trailing zeros only; the converse too |
| PluralOperands.EqualLiterals | internal/pkg/localize/plural/operands.go:140-192 | literals of equal value, however written, have equal i, w and t |
| PluralOperands.ExponentExpansion | internal/pkg/localize/plural/operands.go:9-12 | a literal and the same digits with the exponent carried out agree in all operands but c |
| PluralOperands.IntAgreesWithString | internal/pkg/localize/plural/operands.go:77-82 | an int64 and its decimal string have the same operands exactly when it is not the least int64 |
| PluralLiterals.TextSplits | internal/pkg/localize/plural/operands.go:84-90 | every text of sign, digits, point, fraction and exponent, with either letter, is cut at its exponent mark |
| PluralLiterals.LiteralOperands | internal/pkg/localize/plural/operands.go:140-192 | such a text parses exactly if the float parser accepts it and its exponent, integer and fraction digits fit; its operands are then the quotient and remainder of its shifted digits and the number of digits that stay visible |
| PluralLiterals.LiteralValue | internal/pkg/localize/plural/operands.go:140-192 | the operands stand for all digits of the text times the power of ten that point and exponent leave |
| PluralLiterals.ExponentExample | internal/pkg/localize/plural/operands.go:148-160 | 1.5e3 is 1500 with exponent 3 |
| PluralSigns.PlusExact | internal/pkg/localize/plural/operands.go:92-192 | a literal with a plus has the operands of the same literal without it exactly if the float parser accepts it and the shift is to the right, or by fewer digits than stand before the point, or by one more with a digit other than zero; else it is refused |
| PluralSigns.OneTenth | internal/pkg/localize/plural/operands.go:92-110 | with one digit before the point and the exponent -1 the plus makes it refused |
| PluralSigns.SecondMinus | internal/pkg/localize/plural/operands.go:140-164 | of two minus signs the second makes the integer operand negative |
| PluralRules.NPredicatesExact | internal/pkg/localize/plural/operands.go:23-53 | the four predicates decide the relations of n, and of n modulo m, on the exact decimal value |
| CldrRules.DecidesHolds | internal/pkg/localize/plural/operands.go:23-53 | a condition of any shape is true of the exact value exactly when the arithmetic on i, t and the other operands says so |
| CldrRules.CldrExact | internal/pkg/localize/plural/rule_gen.go:7-649 | each of the forty form functions gives the first form whose CLDR condition is true of the exact value, and Other when none is |
| CldrRules.LiteralForm | internal/pkg/localize/plural/operands.go:140-192 | the same for the operands of every literal that parses, whose value `OperandsExact` ties to the literal |
| PluralRules.ValueOnlyRules | internal/pkg/localize/plural/rule_gen.go:7-649 | exactly the listed rules give equal forms to all numbers of equal value |
| PluralRules.EqualLiteralsEqualForms | internal/pkg/localize/plural/rule_gen.go:7-649 | under those rules literals of equal value get the same form, trailing zeros and exponents included |
| PluralRules.ExponentRules | internal/pkg/localize/plural/rule_gen.go:267-326 | exactly fr, pt, ca and es depend on the compact exponent |
| PluralRules.ExpansionKeepsForm | internal/pkg/localize/plural/rule_gen.go:7-649 | all other rules give a literal and its expansion the same form |
| PluralRules.SlavicPartition | internal/pkg/localize/plural/rule_gen.go:403-480 | ru and pl return Other iff there are visible fraction digits, be returns Other and lt Many iff the value is no integer |
| PluralRules.RussianPeriod | internal/pkg/localize/plural/rule_gen.go:461-480 | the ru form of an integer repeats with period 100 |
| PluralRules.RussianIsBelarusian | internal/pkg/localize/plural/rule_gen.go:423-480 | ru and be agree on all integers although their rules are written differently |
| PluralRules.DeclaredForms | internal/pkg/localize/plural/rule_gen.go:7-649 | the forms each rule declares are exactly those it returns for numbers |
| PluralRules.RemTruncates | internal/pkg/localize/plural/operands.go:29-50 | the remainder that the rules take has the sign of the dividend |
| PluralRules.LeastIntForms | internal/pkg/localize/plural/operands.go:77-82 | the form of the least int64 is that of the number without its sign for exactly the rules other than ar, be, lt, mo, mt, pl and ru, which return Other |
| ConsulTree.AtPut | internal/pkg/config_provider/consul/convertor.go:31-65 | what every path leads to after storing a value: leaves on the way become sections, a section at the end keeps the value out |
| ConsulTree.AtBuild | internal/pkg/config_provider/consul/convertor.go:17-29 | the tree holds a section exactly at the strict prefixes of stored paths and elsewhere the last value of the path |
| ConsulTree.Confluence | internal/pkg/config_provider/consul/convertor.go:17-65 | every order of the pairs builds the same tree exactly when pairs of one path agree or another path extends it |
| ConsulTree.RawKeyAmbiguous | internal/pkg/config_provider/consul/convertor.go:20-26 | a key below the prefix and the same key without it build different trees in the two orders |
| ConsulTree.DistinctKeysConfluent | internal/pkg/config_provider/consul/convertor.go:17-65 | pairs with distinct stored keys build the same tree in any order |
| ConsulSections.OpenSection | internal/pkg/config_provider/consul/convertor.go:36-51 | a missing or overwritten name gets a new nested map, and nothing else changes |
| ConsulSections.StoreValue | internal/pkg/config_provider/consul/convertor.go:53-62 | the last name gets the value unless a nested map is there |
| ConsulSections.WalkOn | internal/pkg/config_provider/consul/convertor.go:36-52 | one turn of the walk: the section for the next name, made if it is not there |
| ConsulSections.AddToObject | internal/pkg/config_provider/consul/convertor.go:31-65 | walking and rewriting the nested maps in place stores the value as the tree says |
| ConsulSections.ConvertPairsToObject | internal/pkg/config_provider/consul/convertor.go:17-29 | the nested maps read from the pairs stand for the built tree |
| ConsulSections.RepresentsOneTree | internal/pkg/config_provider/consul/convertor.go:31-65 | nested maps stand for one tree only |
| ConsulFlatten.Dfs | internal/pkg/config_provider/consul/convertor.go:75-92 | in any order of the children the walk adds only leaves of the tree, and all of them when no name has a slash |
| ConsulFlatten.ConvertObjectToKeys | internal/pkg/config_provider/consul/convertor.go:68-96 | the keys are a flattening of the tree, and there is no error to report |
| ConsulText.DenotedInteger | internal/pkg/config_provider/consul/convertor.go:98-150 | the text of an integer is read back as that integer, by its digits and by ParseInt |
| ConsulText.SplitJoined | internal/pkg/config_provider/consul/convertor.go:98-150 | a joined list splits at its commas into the texts exactly when none of them has a comma |
| ConsulText.JoinedTwice | internal/pkg/config_provider/consul/convertor.go:118-150 | whatever the texts hold, two lists joined are their joins with one comma between |
| ConsulText.BytesSay | internal/pkg/config_provider/consul/convertor.go:98-150 | the bytes of every supported value say that value: true or false, its digits, its list in order |
| ConsulText.StoredLeaf | internal/pkg/config_provider/consul/convertor.go:68-96 | the entry stored for a leaf at a path says the value of that leaf |
| ConsulRoundTrip.RoundTrip | internal/pkg/config_provider/consul/convertor.go:17-96 | flattening and building, in any order of the pairs, gives back the rendered tree exactly when names are slash-free, leaves supported, sections non-empty and no leaf at the top is nameless |
| ConsulRoundTrip.SlashNameLost | internal/pkg/config_provider/consul/convertor.go:77-81 | a section with a slash in a name does not come back |
| ConsulRoundTrip.BuiltIsStorable | internal/pkg/config_provider/consul/convertor.go:17-65 | whatever is built satisfies those conditions |
| ConsulRoundTrip.FlattenBuilt | internal/pkg/config_provider/consul/convertor.go:17-96 | flattening what was built from any pairs returns exactly the values the pairs state |
| ConsulRoundTrip.SurvivingPairs | internal/pkg/config_provider/consul/convertor.go:17-96 | keys below the prefix come back unchanged: the last pair of each key whose path no other path extends |
| ConsulMerge.FlattenMerged | internal/pkg/config/config.go:104-113 | flattening two merged trees gives the flattening of the first overridden by that of the second |
| ConsulMerge.ReadSide | internal/pkg/config/config.go:99-116 | reading the listed pairs without conflicting paths, merging them over the file and flattening the result gives the entries of the file overridden by the listed ones under their new keys |
| ConsulMerge.ReadSideExact | internal/pkg/consul/consul.go:54-61 | that is the file overridden by the listed entries as they are if and only if their keys lie below the prefix and a slash, the key of the prefix and the slash alone aside |
| ConsulMerge.RereadStore | internal/pkg/consul/consul.go:54-61 | what is written back is in the store already or is the copy of an entry outside the prefix, and all copies are written back |
| Bootstrap.StepInv | internal/pkg/consul/consul.go:63-77 | no step of any instance changes an existing entry or creates a key twice |
| Bootstrap.BootstrapsAreSafe | internal/pkg/config/config.go:89-123 | in every interleaving from the start, whatever the prefixes, existing entries stay, each absent key is created at most once, from some instance's file or as the copy of an entry outside some prefix, and an instance that succeeded left its file and all copies bound |
| Bootstrap.FailedExactly | internal/pkg/config_provider/consul/consul.go:38-60 | in every run a finished instance reports an error if and only if one of its reads or inserts did |
| Bootstrap.SuccessfulRun | internal/pkg/config/config.go:89-123 | from every initial state some run ends with the success of all instances |
| Bootstrap.InsertedKeys | internal/pkg/consul/consul.go:63-77 | in every run a key is in the store at the end if and only if it was there or an insert of it took effect |
| Bootstrap.NewEntriesFromFiles | internal/pkg/config/config.go:89-123 | in all runs of instances with one prefix new entries come from files if and only if every copy is bound at the start or in some file |
| Bootstrap.ReplicasConverge | internal/pkg/config_provider/consul/consul.go:38-60 | once all replicas of one file succeeded the store is the file overridden by the copies and by what was there, whatever the interleaving; the copies make no difference if and only if they are bound already or in the file |
| Bootstrap.RepeatWritesNothing | internal/pkg/config/config.go:89-123 | no run writes anything if and only if every instance is settled: its file and all copies are bound |
| Bootstrap.SettledAfterSuccess | internal/pkg/config/config.go:89-123 | after a success the instance is settled, so bootstrapping it again writes nothing |
| Bootstrap.NeighbourCopied | internal/pkg/consul/consul.go:54-61 | a run in which a service with an empty file takes over an entry of another prefix |
| ConfigLayers.LookupIsMerged | internal/pkg/config/methods.go:92-99 | the first-match search agrees with one map in which later layers override earlier ones |
| ConfigLayers.LayerForFirst | internal/pkg/config/methods.go:92-99 | the search stops at the first layer with the key, and at the environment when there is none |
| ConfigLayers.LookupIsWinner | internal/pkg/config/config.go:126-141 | after any loads and merges a lookup yields the last report of the provider loaded last among those that bound the key |
| ConfigLayers.StaysBound | internal/pkg/config/watch.go:58-64 | a key bound by a provider stays bound by it |
| ConfigReload.StepCovers | internal/pkg/config/watch.go:26-109 | every step keeps each subscriber either up to date or with a refresh still to come |
| ConfigReload.NoLostUpdate | internal/pkg/config/watch.go:26-109 | in every interleaving, with loads at any time and components that refresh themselves, when no token is in the slot or on its way, a subscriber whose last refresh did not fail has the configuration of the layers as they are if and only if it is a current one |
| ConfigReload.StaleSubscriber | internal/pkg/config/watch.go:43-47 | a subscriber out of date when it subscribed can stay so, which is why the claim is about current ones |
| ConfigReload.LateLoad | internal/pkg/config/config.go:126-141 | a run in which a provider loaded after Watch leaves a subscriber out of date in a quiet state |
| ConfigReload.TriggerRefreshesAll | internal/pkg/config/watch.go:80-109 | from a received token the receiver alone can bring every subscriber up to date |
| ConfigReload.UpdateReachesAll | internal/pkg/config/watch.go:50-109 | from a report of a watched provider a run merges it and brings every subscriber up to date |
| ConfigReload.ReadyRun | internal/pkg/config/watch.go:11-41 | such a state is reached from the start |
| ConfigReload.CallbacksReport | internal/pkg/config/watch.go:50-69 | in every run, however many providers are loaded in between, exactly the providers that a callback was registered for can report |
| ConfigReload.CloseOnce | internal/pkg/config/close.go:9-31 | what Close does to the shared fields before Watch, after it and the second time |
| ConfigReload.ShutdownEnds | internal/pkg/config/watch.go:27-40 | after Close the receiver ends, and a token still in the slot is served first |
| ConfigReload.PanicsExactly | internal/pkg/config/watch.go:54-68 | which sends and closes panic: those on a closed channel that the flag does not keep out |
| ConfigReload.ShutdownSafe | internal/pkg/config/close.go:9-31 | no send meets a closed channel and the channel is closed at most once |
| ConfigReload.ClosedIsFinal | internal/pkg/config/watch.go:54-56 | after Close, before or after Watch, no step fills the slot or changes a layer, except that a load adds one in front |
| ConfigReload.RunIsLog | internal/pkg/config/watch.go:50-64 | the layers of every run are those its loads and merges build |
| ConfigReload.LookupInRun | internal/pkg/config/methods.go:92-99 | in every run a lookup yields the winning report and agrees with the merged map |
| ConfigObjects.Config.LoadFromProvider | internal/pkg/config/config.go:126-141 | a readable provider's layer comes first, an unreadable one changes nothing |
| ConfigObjects.Config.OnChange | internal/pkg/config/watch.go:50-69 | the callback is the change step of the protocol |
| ConfigObjects.Config.Close | internal/pkg/config/close.go:9-31 | Close is the closing step, reports an error iff a provider did, and does nothing the second time |
| ConfigObjects.Config.Subscribe | internal/pkg/config/watch.go:43-47 | the subscriber is appended, also when it is there already |
| ConfigObjects.Config.TriggerUpdates | internal/pkg/config/watch.go:80-109 | each watcher is left as the turns of its subscriptions on the same layers leave it, in any order of the turns: one that is subscribed once has what it creates from the layers, or something equal, unless its callback refused or panicked, and then keeps what it had with a failure |
| ConfigObjects.OneTurn | internal/pkg/config/watch.go:86-109 | a watcher that is subscribed once takes exactly one turn, in whatever order |
| ConfigObjects.LastTurnCounts | internal/pkg/config/watch.go:86-109 | a watcher subscribed several times is left as its last turn leaves it |
| ConfigObjects.TurnIsServed | internal/pkg/config/config_watcher.go:63-92 | the turn of a watcher is the step of the protocol, without a callback an accepting one |
| ConfigObjects.Config.GetViperInstance | internal/pkg/config/methods.go:92-99 | the search returns the first layer in which the key is set, else the environment |
| ConfigObjects.ConfigWatcher.TryUpdate | internal/pkg/config/config_watcher.go:63-92 | the stored configuration is the initial one or the last that was accepted, also after a panic; both results in every case |
| ConfigObjects.ConfigWatcher.Get | internal/pkg/config/config_watcher.go:51-55 | the reader sees the last accepted configuration |
| ConfigObjects.ConfigWatcher.OnRefresh | internal/pkg/config/config_watcher.go:57-61 | the callback is set and the configuration stays as it is |
| IcuOptions.ExtractOptions | internal/pkg/localize/localize/icu_parser.go:14-68 | the scanner computes the specified result on every body |
| IcuOptions.ReadOption | internal/pkg/localize/localize/icu_parser.go:19-64 | one turn of the main loop finds the next option or the reason to stop |
| IcuOptions.BraceLoop | internal/pkg/localize/localize/icu_parser.go:47-58 | the counting loop stops at the matching brace or at the end |
| IcuOptions.ScanExact | internal/pkg/localize/localize/icu_parser.go:14-68 | the scanner succeeds on exactly the bodies that are layouts of options, with exactly those options |
| IcuOptions.ReturnedOptions | internal/pkg/localize/localize/icu_parser.go:33-64 | on every input returned keys are non-empty and returned texts are brace-balanced |
| IcuOptions.PlainRoundTrip | internal/pkg/localize/localize/icu_parser.go:14-68 | plain keys with trimmed, balanced texts of any nesting come back exactly, however they are spaced |
| IcuLayouts.TrimsBoth | internal/pkg/localize/localize/icu_parser.go:33 | trimming takes the white space characters of Unicode off both ends and nothing else |
| IcuLayouts.BalancedIsNested | internal/pkg/localize/localize/icu_parser.go:47-58 | a text is balanced exactly when its braces are equally many and no prefix has more closing ones |
| IcuLayouts.TypedScan | internal/pkg/localize/localize/icu_parser.go:14-68 | options typed with any blanks, white space and gaps come back with their keys and texts, and each of the four ways a body can end gives its result: only blanks the options, white space in place of a key, a key without an opening brace and a text never closed their errors |
| IcuLayouts.EveryBody | internal/pkg/localize/localize/icu_parser.go:14-68 | every body is options as typed and one of these endings, so the characters determine every result |
| IcuLayouts.CarriageReturn | internal/pkg/localize/localize/icu_parser.go:20-36 | after any options, an indented line behind a carriage return and a newline is an empty key |
| IcuPlaceholders.ConvertIdempotent | internal/pkg/localize/localize/icu_parser.go:140-156 | converting twice is converting once exactly unless both the text and the variable contain # |
| IcuPlaceholders.HashReplacedAgain | internal/pkg/localize/localize/icu_parser.go:140-156 | the text # with the variable # is changed by every conversion |
| IcuPlaceholders.NoUndottedLeft | internal/pkg/localize/localize/icu_parser.go:146-153 | no placeholder without a dot is left anywhere |
| IcuPlaceholders.ConvertNesting | internal/pkg/localize/localize/icu_parser.go:140-156 | the result is brace-balanced exactly when the text was |
| IcuRewriting.ConvertedText | internal/pkg/localize/localize/icu_parser.go:140-156 | every text is parts between # signs and, with the dotted variable in their place, placeholders and other pieces; the result has the dot in every placeholder without one and is otherwise that text |
| IcuRewriting.ConvertedTokens | internal/pkg/localize/localize/icu_parser.go:140-156 | the same for any parts and pieces a text can be read as |
| IcuRewriting.NameShown | internal/pkg/localize/localize/icu_parser.go:146-153 | {name} becomes {.name} unless the name has a dot in front |
| IcuRewriting.SignShown | internal/pkg/localize/localize/icu_parser.go:141-144 | # becomes the dotted plural variable |
| IcuMessage.ParsePlural | internal/pkg/localize/localize/icu_parser.go:87-138 | the loop over the options computes the specified message or error |
| IcuMessage.FoldFields | internal/pkg/localize/localize/icu_parser.go:98-135 | only unknown keys fail, and each field holds its named text or else its numbered one |
| IcuMessage.OrderExact | internal/pkg/localize/localize/icu_parser.go:98-135 | all orders of the options give the same message or error if and only if unknown keys are all the same, or there are none and in every field named forms agree, no numbered form can fill an empty named one, and without named forms the numbered ones agree |
| IcuMessage.OrderIrrelevant | internal/pkg/localize/localize/icu_parser.go:98-135 | options that agree give the same message in any order |
| IcuMessage.NamedWins | internal/pkg/localize/localize/icu_parser.go:101-130 | a named form beats a numbered one wherever it stands |
| IcuMessage.NamedKeySets | internal/pkg/localize/localize/icu_parser.go:101-113 | at any place of a message each of the six names sets its own field and no other |
| IcuMessage.ErrorKeys | internal/pkg/localize/localize/icu_parser.go:114-134 | a key is an error if and only if it is none of the six names and does not begin with = |
| IcuMessage.FewAndMany | internal/pkg/localize/localize/icu_parser.go:108-111 | few and many fill the fields few and many |
| IcuMessage.MessageOfBody | internal/pkg/localize/localize/icu_parser.go:87-138 | blanks alone have no forms, a layout is folded, and every other body is an error of the scanner |
| IcuBodies.NamedBody | internal/pkg/localize/localize/icu_parser.go:87-138 | a body typed with named forms in any spacing parses; each field has the converted text of the last form with its name, and is empty without one |
| IcuBodies.BrokenBody | internal/pkg/localize/localize/icu_parser.go:87-91 | a body that ends in an error of the scanner is that error, whatever options stand before it |
| Atoi.AtoiZero | internal/pkg/localize/localize/icu_parser.go:116 | the number left behind is zero exactly for zero and for what is no number, unless that begins with a number too large |
| Atoi.AtoiNumber | internal/pkg/localize/localize/icu_parser.go:116 | it is any other number within the limits exactly for the notation of that number |
| Atoi.AtoiText | internal/pkg/localize/localize/icu_parser.go:116 | what is left behind for any sign, digits and rest: the clamped number, or zero for no digits or a rest behind digits within uint64 |
| Atoi.EveryNotation | internal/pkg/localize/localize/icu_parser.go:116 | every text has such a notation |
| IcuMessage.GarbageIsZero | internal/pkg/localize/localize/icu_parser.go:115-130 | which keys beginning with = are read as =0, =1 and =2, each as an if and only if |
| IcuMessage.NumberedKeyFills | internal/pkg/localize/localize/icu_parser.go:98-135 | at any place of a message such a key fills its field exactly when that is still empty, garbage the one for zero, and changes nothing else |
| IcuMessage.GarbageBeatsZero | internal/pkg/localize/localize/icu_parser.go:115-121 | the message in which =x stands before =0 and takes its place |
| IcuMessage.LargeGarbageIgnored | internal/pkg/localize/localize/icu_parser.go:115-121 | garbage behind a number too large is ignored |
| DiContainer.Container.Inject | pkg/di/container.go:128-166 | the call that is made, its arguments, and the answer in every case |
| DiContainer.Container.CollectArgs | pkg/di/container.go:142-152 | the argument loop finds the registered instances, or a missing type |
| DiContainer.Container.RegisterService | pkg/di/container.go:94-125 | the answer and the whole new state of a registration, early or late |
| DiContainer.Container.BuildAll | pkg/di/container.go:35-70 | building injects every deferred service in any order and succeeds iff all of them do |
| DiContainer.RegistrationAnswer | pkg/di/container.go:94-125 | each answer of a registration as an if and only if on the registry, the flag and what ResolveDeps says |
| DiContainer.RegistrationEffect | pkg/di/container.go:94-166 | the one entry with its mark, and the one call with the registered instances or none |
| DiContainer.LateLikeInjected | pkg/di/container.go:103-117 | a late registration is accepted exactly when an early one would have been injected at once, with the same entry |
| DiContainer.BuildEffect | pkg/di/container.go:35-70 | a build ends the initialization if and only if every waiting service can be injected, and calls each that misses nothing once |
| DiContainer.RunKeepsClosed | pkg/di/container.go:35-125 | in every run the registry only grows and never rebinds, injected services have all their dependencies, and an initialized container is closed |
| DiContainer.RefusedChangesNothing | pkg/di/container.go:103-124 | a refused registration leaves the registry as it was |
| DiContainer.FirstBuild | pkg/di/container.go:35-166 | for every order, cycles included, the first build succeeds iff every parameter type is registered, and then every service was injected exactly once with exactly the registered instances |
| DiContainer.OrderIrrelevant | pkg/di/container.go:35-166 | two orders of the same registrations build alike |
| DiContainer.CallsOfRun | pkg/di/container.go:35-125 | in every run of registrations and builds that ends initialized a service was called once and once more for each failed build that found it waiting with all it needs, always with exactly the registered instances |
| DiContainer.ExactlyOnce | pkg/di/container.go:35-125 | in every such run all services were injected exactly once if and only if at each failed build every waiting service missed a parameter type |
| DiContainer.InjectedTwice | pkg/di/container.go:59-70 | a run of four registrations and two builds that injects a service twice |
| Translations.ConvertKeysToDictionary | internal/pkg/translations/providers/file_translation/convert.go:5-16 | in any order of iteration the result is the transposed table |
| Translations.ConvertKey | internal/pkg/translations/providers/file_translation/convert.go:7-13 | the inner loop carries over the texts of one key in any order |
| Translations.CollectKeys | internal/pkg/translations/providers/tolgee/convert.go:6-18 | in any order of iteration each key collects its texts under its name and the tags |
| Translations.CollectLanguage | internal/pkg/translations/providers/tolgee/convert.go:8-17 | the inner loop collects the texts of one language in any order |
| Translations.ConvertDictionaryToImportKeys | internal/pkg/translations/providers/tolgee/convert.go:5-25 | one import key for each key, in any order |
| Translations.TransposedTwice | internal/pkg/translations/providers/tolgee/convert.go:5-25 | transposing twice gives back the table without its empty rows |
| Translations.ImportRoundTrip | internal/pkg/translations/providers/file_translation/convert.go:5-16 | a table converted both ways yields one import key for each translated key, with exactly its translations |

## Left out

- The float operand n of the plural operands: no rule reads it; its parse appears as a verdict only.
- `NewOperands`: the dispatch on the Go type of the argument.
- Memory limits of very long shifted strings; the model's strings have no bound.
- Language tags, their parents, and the registration of rules under tags.
- Viper: case folding, nested merging and type coercion; a layer is a flat map from key to value.
- Bootstrap.NewEntriesFromFiles: the exact condition is for instances of one prefix; with several prefixes a copy can be copied on by an instance that reads later, and `BootstrapsAreSafe` says where each entry comes from.
- Bootstrap: entries are merged key by key, which `ConsulMerge.ReadSide` justifies when no listed path extends another and file and store have no leaf where the other has a section; other stores, and keys with upper-case letters, are not covered.
- Floats in `anyToBytes`: a leaf carries the text that the %f verb prints.
- A panic of a component's create function: it ends the process.
- ConfigReload.NoLostUpdate: a second Watch call is not a step of the protocol, and a component that calls TryUpdate on its own reads all its keys at one moment.
- ConfigReload: a watcher that is subscribed twice counts as two components; a load during Watch may get its callback registered or not.
- ConfigReload: freedom from deadlock is not claimed, since a trigger holds the read lock while subscribers take it again.
- The typed getters of the configuration, apart from the layer they read.
- The regular expression that splits a plural message into variable and body, messages that are no plural, and invalid UTF-8.
- DiContainer: ResolveDeps of a service answers the same on every call and does not use the container; `resolve` and the global container are plain lookups.
- DiContainer: a parameter of a value type shares its name with a registered pointer to that type, and the reflective call then panics; parameters are pointers here.
- Shared inner maps in Translations and shared Go maps elsewhere: values take their place, except in ConsulSections.
- Clients and wrappers for Kafka, Redis, S3, gRPC, Vault, Zeebe, databases, tracing, metrics and logging.
