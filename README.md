# Senza traffic switching and command-line helpers, in Dafny

Senza deploys an application as several *stack versions*. Each version
publishes a weighted Route53 CNAME record under the application's domain.
The `traffic` command moves a share of the requests to one version by
rewriting those weights. Weights are integers in units of half a percent:
`PERCENT_RESOLUTION = 2` and `FULL_PERCENTAGE = 200`.

A traffic change, as modelled here:

1. It finds the stack version (`GetVersion`) and its hosted zone (`ZoneDomain`).
2. It reads the current weights of the records of the version's DNS name (`GetWeights`).
3. It decides one of three outcomes (`NewWeights`):
   - disable the last live version;
   - promote a sole survivor to the full percentage;
   - give the target its percentage and spread the rest evenly over the other live versions (`CalculateNewWeights`).
4. It repairs the rounding error, newest version first (`Compensate`), falling back on the target's own percentage.
5. It builds the Route53 change batch of UPSERTs and DELETEs (`SetNewWeights`).

The central laws are proved for all inputs:

- **Total conservation.** Unless the last version is disabled, the new weights sum to `FULL_PERCENTAGE`. This is the source's own `assert` (`TotalIsFull`, `ShiftConservesTraffic`).
- **Floor.** Below the full percentage, every other version that had traffic keeps at least weight 1 (`LiveVersionsKeepTraffic`).
- **Minimal and complete batch.** The batch changes exactly the records that are not yet in place (`ScanChanges`, `NewRecordIff`). A record is in place only when it already stores its new, non-zero weight: a record stored at 0 whose new weight is 0 still gets a DELETE (`InPlace`).
- **Idempotence.** Executing the batch as Route53 does (`ApplyBatch`: a DELETE removes the record set it names, an UPSERT replaces it or adds it) yields the record set `Applied` describes (`BatchApplied`). Running `set_new_weights` again on that record set yields no change (`Idempotent`).

The whole weight trace of the command-line test is replayed as lemmas (`TrafficTrace`).

From the command-line module, the model covers:

- `parse_args`, which binds template parameters from positional and `KEY=VALUE` arguments, with its five usage errors;
- `get_stack_refs`, which pairs stack names with optional versions;
- the version and stack-name patterns;
- `KeyValParamType.convert`;
- `format_resource_type`;
- `get_console_line_style`;
- `is_credentials_expired_error`;
- the 128-character stack-name check of `create`.

Layout, one module per file:

- `Wrappers` holds `Option` and `Result`.
- `LexOrder` is Python string ordering.
- `TrafficWeights` covers `get_weights` and `calculate_new_weights`.
- `TrafficCompensate` covers `compensate` and its newest-first candidate order.
- `TrafficChanges` covers `set_new_weights`.
- `Traffic` covers stack versions and `change_version_traffic`.
- `TrafficTrace` holds the test trace.
- `CliText` covers substring tests, splitting and the patterns.
- `CliParams` covers `parse_args`.
- `CliRefs` covers `get_stack_refs`.
- `CliFormat` covers the small formatting helpers and the stack-name check.
- `CliTrace` holds the `create`/`print` test cases.

Loops that update state are methods proved equal to a specification function:

- `RunPass` and `Compensate`;
- `SetNewWeights` and `ChangeVersionTraffic`, which overwrite record weights in an `array` as the source does;
- `ParseArgs`, `DeclareAll`, `BindKeywords` and `FillDefaults`;
- `GetStackRefs`.

`DecideWeights` is a straight-line method, the decision part of `change_version_traffic`, proved equal to the same kind of function.

The properties are proved about those functions.

## Model

| member | source | states |
|---|---|---|
| `Traffic.IdentifierInjective` | senza/traffic.py:186-188 | within one stack, two versions share the set identifier `<name>-<version>` exactly when they share the version label |
| `Traffic.DnsNameInjective` | senza/traffic.py:190-192 | two versions have the same record name `<domain>.` exactly when they have the same domain, so records of one domain never match another |
| `Traffic.GetVersion` | senza/traffic.py:214-218 | succeeds exactly when some stack version has the label, and returns the first such version; otherwise it fails with "version not found" |
| `Traffic.VersionIndex` | senza/traffic.py:300-301 | the identifier index has distinct keys, labels exactly its keys, and labels every stack version's identifier |
| `Traffic.VersionIndexLabels` | senza/traffic.py:300-301 | an identifier is labelled with the version of its last occurrence, since a later duplicate overwrites |
| `Traffic.ZoneDomain` | senza/traffic.py:309 | `split('.', 1)[1]` succeeds exactly when the domain has a dot; the result is what follows the first dot, and otherwise the call fails |
| `Traffic.FullAllocationExact` | senza/traffic.py:327-331 | when the target takes `FULL_PERCENTAGE`, the allocation sums to exactly `FULL_PERCENTAGE`, whatever the delta |
| `Traffic.NewWeights` | senza/traffic.py:316-336 | the decision assigns a new weight to exactly the identifiers that were read |
| `Traffic.AllocationPositive` | senza/traffic.py:323-331 | outside the disable case, the allocation before compensation sums to at least 1 |
| `Traffic.ErrorBelowFull` | senza/traffic.py:332-334 | outside the disable case, the guard `calculation_error < FULL_PERCENTAGE` always holds |
| `Traffic.TotalIsFull` | senza/traffic.py:337 | outside the disable case, the new weights sum to `FULL_PERCENTAGE`, as the source asserts |
| `Traffic.DisableAll` | senza/traffic.py:316-319 | disabling the last live version sets every weight to 0; the sum and the percentage are 0 |
| `Traffic.SoleSurvivor` | senza/traffic.py:327-330 | with no other live version, any positive request puts the target at `FULL_PERCENTAGE` and all others at 0; the difference is recorded as the target's compensation |
| `Traffic.TargetWeight` | senza/traffic.py:331-336 | the target ends at the returned percentage; that is the requested one unless compensate adjusted it, and then the adjustment is the target's compensation |
| `Traffic.LiveVersionsKeepTraffic` | senza/traffic.py:41-102 | below the full percentage, every version other than the target that had traffic keeps weight at least 1 |
| `Traffic.SnapshotLabelled` | senza/traffic.py:313-314 | the weights read for a known version hold only labelled identifiers and give a weight to every record of its name |
| `Traffic.ShiftTraffic` | senza/traffic.py:297-345 | on success, the snapshot is in dict order and holds the target; the new weights cover exactly its identifiers and every record of the name |
| `Traffic.ShiftAt` | senza/traffic.py:309-345 | the same guarantees once the version has a domain and a zone |
| `Traffic.DecideWeights` | senza/traffic.py:316-336 | the decision as the source computes it, step by step, equals `NewWeights` |
| `Traffic.ChangeVersionTraffic` | senza/traffic.py:297-345 | the result is `ShiftTraffic` on the records as listed; on success, each record whose weight was UPSERTed holds its new weight and the others are unchanged; an early failure leaves the records alone |
| `Traffic.SnapshotConsistent` | senza/traffic.py:12-38 | with unique identifiers and stored weights that are not negative, the weights read are consistent: the partial count and sum describe the other live versions |
| `Traffic.PlanConservesTraffic` | senza/traffic.py:316-337 | the decision either disables everything or sums to `FULL_PERCENTAGE`; below the full percentage, live versions keep traffic |
| `Traffic.ShiftAtConserves` | senza/traffic.py:309-337 | the same laws for the snapshot actually read for the version found |
| `Traffic.ShiftConservesTraffic` | senza/traffic.py:297-337 | end to end, a successful traffic change disables everything or conserves `FULL_PERCENTAGE`, and keeps the floor below full |
| `TrafficWeights.ReadRecords` | senza/traffic.py:21-32 | the record loop yields weights in dict order for exactly the identifiers of the name's CNAME records, none negative when none is stored negative |
| `TrafficWeights.ReadRecordsWeights` | senza/traffic.py:21-27 | each record of the name is read under its set identifier, and a falsy weight reads 0 |
| `TrafficWeights.ReadRecordsPartial` | senza/traffic.py:28-32 | the partial count is the number of other identifiers with positive weight; the partial sum is the total minus the target's weight |
| `TrafficWeights.SetDefault` | senza/traffic.py:33-34 | the defaulting assignment adds exactly the key and keeps dict order |
| `TrafficWeights.SetDefaultKeeps` | senza/traffic.py:33-37 | defaulting one key keeps the sum, the live count and every existing weight |
| `TrafficWeights.SetDefaults` | senza/traffic.py:35-37 | defaulting all known identifiers adds exactly them and keeps dict order |
| `TrafficWeights.SetDefaultsKeeps` | senza/traffic.py:35-37 | defaulting all known identifiers keeps the sum and the live count |
| `TrafficWeights.SetDefaultsValues` | senza/traffic.py:35-37 | existing weights are kept, added identifiers read 0, and the partial count and sum are unchanged |
| `TrafficWeights.SetDefaultsPresent` | senza/traffic.py:35-37 | identifiers that already have a weight change nothing |
| `TrafficWeights.GetWeights` | senza/traffic.py:12-38 | `get_weights` covers the name's records, the target and every known identifier, in dict order; no weight is negative when none is stored negative |
| `TrafficWeights.GetWeightsValues` | senza/traffic.py:12-38 | records keep their stored weight, and every added identifier reads 0 |
| `TrafficWeights.GetWeightsPartial` | senza/traffic.py:12-38 | the partial count and sum are the live count and the weight of everyone but the target |
| `TrafficWeights.TruncDiv` | senza/traffic.py:324 | `int(a / b)` truncates toward zero: the quotient times b lies within one divisor of a, on a's side of zero |
| `TrafficWeights.CalculateNewWeights` | senza/traffic.py:41-61 | the target gets the percentage; at full percentage the others get 0; a version with no traffic stays at 0; a live one gets `max(1, w + delta)`; each delta is new minus old |
| `TrafficWeights.ShiftedSum` | senza/traffic.py:41-61 | shifting each live non-target weight by delta changes their sum by delta times the live count |
| `TrafficWeights.AllocationRoundingError` | senza/traffic.py:323-333 | when no live version hits the floor, the calculation error is strictly between minus and plus the partial count |
| `TrafficCompensate.InsertByVersion` | senza/traffic.py:79 | one insertion step of the sort lengthens the order by one and keeps every label known |
| `TrafficCompensate.InsertByVersionPermutes` | senza/traffic.py:79 | insertion adds exactly the new identifier to the multiset |
| `TrafficCompensate.InsertByVersionDescending` | senza/traffic.py:79 | insertion keeps the order sorted by version label, newest first |
| `TrafficCompensate.ByVersionDescending` | senza/traffic.py:79 | the candidate order has as many entries as the keys, all labelled |
| `TrafficCompensate.ByVersionDescendingPermutes` | senza/traffic.py:79 | the candidate order is a permutation of the keys |
| `TrafficCompensate.ByVersionDescendingSorted` | senza/traffic.py:79 | the candidate order is sorted by version label in descending order |
| `TrafficCompensate.DescendingUnique` | senza/traffic.py:79 | with distinct labels, two descending permutations of the same identifiers are equal |
| `TrafficCompensate.CandidateOrderDeterministic` | senza/traffic.py:79 | the candidate order depends only on which identifiers there are, not on their dict order |
| `TrafficCompensate.CompensationStep` | senza/traffic.py:72-77 | the step is never 0 and has the error's sign, with magnitude at least 1; it does not overshoot the error unless it is ±1; an error of 0 gives -1 |
| `TrafficCompensate.CompensationPass` | senza/traffic.py:79-90 | the pass changes weights but never the set of identifiers |
| `TrafficCompensate.RunPass` | senza/traffic.py:79-90 | the loop with its early `break` computes `CompensationPass` |
| `TrafficCompensate.Compensate` | senza/traffic.py:64-102 | compensate computes the pass in newest-first order followed by the fallback onto the target |
| `TrafficCompensate.FallbackConserves` | senza/traffic.py:91-100 | the fallback puts all the remaining error on the target and reports the adjusted percentage and the target's compensation |
| `TrafficCompensate.PassConserves` | senza/traffic.py:79-90 | throughout the pass, the weight sum plus the remaining error stays constant |
| `TrafficCompensate.PassKeepsTarget` | senza/traffic.py:80-81 | the pass never changes the target's weight |
| `TrafficCompensate.PassSteps` | senza/traffic.py:82-88 | over distinct candidates, each identifier either keeps its weight or takes exactly `part`, ends positive, and has `part` recorded as its compensation |
| `TrafficCompensate.PassUntouched` | senza/traffic.py:79-90 | a non-candidate keeps its weight and compensation |
| `TrafficCompensate.CompensatedConserves` | senza/traffic.py:64-102 | after compensate, the sum is the old sum plus the error; the target equals the returned percentage, and any adjustment is recorded as the target's compensation |
| `TrafficCompensate.CompensatedSteps` | senza/traffic.py:64-102 | each other version changes by nothing or by exactly `part`; a version of weight at least 1 stays at least 1 |
| `TrafficCompensate.PassExhausts` | senza/traffic.py:79-90 | a pass that ends with error left has visited every candidate: each took `part` when that kept it positive and kept its weight otherwise |
| `TrafficCompensate.CompensatedFallback` | senza/traffic.py:79-100 | when the percentage is adjusted, every other version took the step if that kept it positive and kept its weight otherwise |
| `TrafficChanges.NewRecord` | senza/traffic.py:122-129 | the synthesised record is a CNAME of the name, under the target's identifier, carrying its weight |
| `TrafficChanges.Overwrite` | senza/traffic.py:109-116 | a record changes exactly when it belongs to the name and its new weight is not 0; only its weight changes, to the new one |
| `TrafficChanges.SetNewWeights` | senza/traffic.py:105-129 | the loop computes `ChangeList`, and on success overwrites each record's weight as `Overwrite` says |
| `TrafficChanges.ScanFailureSticks` | senza/traffic.py:109-121 | once the loop has raised, later records do not matter |
| `TrafficChanges.ChangeOf` | senza/traffic.py:110-121 | a new weight of 0 gives a DELETE of the record; otherwise an UPSERT of the record carrying the new weight |
| `TrafficChanges.ScanFails` | senza/traffic.py:110-113 | the loop raises exactly when a record of the name stores no weight but should get a non-zero one (`int(None)`) |
| `TrafficChanges.ScanDidUpsert` | senza/traffic.py:117-118 | `did_the_upsert` ends true exactly when the target has a record of the name and a non-zero new weight |
| `TrafficChanges.ScanChanges` | senza/traffic.py:109-121 | the loop emits a change for a record exactly when the record is not in place, that change is `ChangeOf` the record, and nothing else is emitted |
| `TrafficChanges.NewRecordIff` | senza/traffic.py:122-129 | a record is created for the target exactly when its new weight is positive and it has no record of the name |
| `TrafficChanges.NoChangesIff` | senza/traffic.py:130-140 | the batch is empty exactly when every record of the name already holds its non-zero new weight and a target that should get traffic has a record |
| `TrafficChanges.Kept` | senza/traffic.py:130-134 | after the batch, every remaining record of the name holds its new weight |
| `TrafficChanges.KeptHasRecord` | senza/traffic.py:130-134 | a record with a non-zero new weight survives the batch |
| `TrafficChanges.Applied` | senza/traffic.py:130-134 | after the batch, including any created record, every record of the name has a new weight |
| `TrafficChanges.BatchApplied` | senza/traffic.py:105-134 | executing the emitted change list, change by change, on the listed records yields exactly `Applied`'s record set |
| `TrafficChanges.Idempotent` | senza/traffic.py:105-140 | after a successful run, executing its batch and running `set_new_weights` again on the result emits no change |
| `TrafficTrace.TraceStep1` | tests/test_cli.py:1005-1006 | `traffic v4 100` from 60/30/10/0 % gives [0, 0, 0, 200] |
| `TrafficTrace.TraceStep2` | tests/test_cli.py:1008-1009 | `traffic v3 10` gives [0, 0, 20, 180] |
| `TrafficTrace.TraceStep3` | tests/test_cli.py:1011-1012 | `traffic v2 0.5` gives [0, 1, 20, 179] |
| `TrafficTrace.TraceStep4` | tests/test_cli.py:1014-1015 | `traffic v1 1` gives [2, 1, 19, 178] |
| `TrafficTrace.TraceStep5` | tests/test_cli.py:1017-1018 | `traffic v4 95` gives [1, 1, 13, 185], the fallback lowering v4's percentage |
| `TrafficTrace.TraceStep6` | tests/test_cli.py:1020-1021 | `traffic v4 100` gives [0, 0, 0, 200] |
| `TrafficTrace.TraceStep7` | tests/test_cli.py:1023-1024 | `traffic v4 10` as sole survivor gives [0, 0, 0, 200] |
| `TrafficTrace.TraceStep8` | tests/test_cli.py:1026-1027 | `traffic v4 0` disables the last version: [0, 0, 0, 0] |
| `TrafficTrace.CompensationRevives` | senza/traffic.py:79-90 | compensate can give weight to a version that had none: v1 going from 98.5 % to 0 leaves v4 at 1 |
| `TrafficTrace.FallbackWithRoom` | senza/traffic.py:79-100 | `traffic v4 95` from 25/25/50/0 % gives [1, 1, 28, 170]: the fallback lowers v4 to 85 % although v3 could still give |
| `CliText.ContainsAt` | senza/cli.py:1026-1033 | Python's `sub in s` holds exactly when `sub` occurs at some position of `s` |
| `CliText.SplitFirst` | senza/cli.py:126 | `split('=', 1)` gives a head without the separator; head, separator and tail rejoin to the input |
| `CliText.SplitFirstJoin` | senza/cli.py:375 | splitting `key + "=" + value`, where the key has no '=', gives back exactly key and value |
| `CliText.Anchored` | senza/cli.py:161-162 | `$` accepts the string itself or the string minus one trailing newline |
| `CliText.VersionMatchesWords` | senza/cli.py:162 | `VERSION_PATTERN` matches exactly the non-empty alphanumeric words, optionally followed by one newline |
| `CliText.VersionHasNoDash` | senza/cli.py:162 | a valid version contains no '-' |
| `CliText.StackNameNoPath` | senza/cli.py:437-440 | a string matching `STACK_NAME_PATTERN` contains neither '.' nor '/' |
| `CliText.ValidateVersion` | senza/cli.py:165-168 | passes exactly the matching versions through unchanged; otherwise raises BadParameter |
| `CliParams.Positional` | senza/cli.py:352-365 | after the first loop, every declared key is bound to its value and default |
| `CliParams.Keywords` | senza/cli.py:371-380 | the keyword loop changes values but not the set of keys |
| `CliParams.Fill` | senza/cli.py:383-386 | succeeds exactly when every key has a value or default; each key takes `value or default`; a failure names a missing key |
| `CliParams.ParseArgs` | senza/cli.py:346-389 | the three loops compute `BindArguments` |
| `CliParams.DeclareAll` | senza/cli.py:352-365 | the first loop computes `Positional` |
| `CliParams.BindKeywords` | senza/cli.py:371-380 | the keyword loop computes `Keywords` |
| `CliParams.FillDefaults` | senza/cli.py:383-386 | the last loop computes `Fill` |
| `CliParams.PositionalFailure` | senza/cli.py:359-365 | the first loop fails exactly when a positional argument follows a keyword within the declared positions; `seen_keyword` records whether a keyword was among them |
| `CliParams.PositionalValues` | senza/cli.py:352-365 | each key holds the argument at its last declaration, unless that is a keyword or missing, and the default of that declaration |
| `CliParams.KeywordsValues` | senza/cli.py:371-380 | after the keyword loop, a key named by a keyword holds the last such value; other keys are unchanged |
| `CliParams.KeywordsSucceed` | senza/cli.py:374-380 | the keyword loop succeeds exactly when every keyword names a declared key that is unbound and named once |
| `CliParams.KeywordsErrors` | senza/cli.py:376-379 | the keyword loop fails only on an undeclared key, or on a key that is already bound or named twice |
| `CliParams.ParseArgsOutcome` | senza/cli.py:346-389 | `parse_args` binds every declared key to its supplied value or default, or raises one of five usage errors, each characterised by its input |
| `CliRefs.ResolveName` | senza/cli.py:432-440 | a reference resolves exactly when it is a readable definition or matches the stack-name pattern; otherwise raises FileError on it |
| `CliRefs.GetStackRefs` | senza/cli.py:416-447 | the pop loop over the reversed list computes `StackRefs` |
| `CliRefs.StackRefsSucceed` | senza/cli.py:427-447 | `get_stack_refs` succeeds exactly when every name position resolves |
| `CliRefs.StackRefsError` | senza/cli.py:436-440 | a failure names the first name position that does not resolve |
| `CliRefs.StackRefsLength` | senza/cli.py:430-446 | it returns one reference per name: half the arguments, rounded up |
| `CliRefs.StackRefsPairs` | senza/cli.py:430-446 | the k-th reference is the name at 2k, with the following argument, if any, as its version |
| `CliRefs.FlattenStackRefs` | senza/cli.py:427-447 | without definition files, writing the references back out gives the arguments |
| `CliRefs.NameOnly` | senza/cli.py:418-419 | doctest: `['foobar-stack']` |
| `CliRefs.NameAndVersion` | senza/cli.py:421-422 | doctest: `['foobar-stack', '1']` |
| `CliRefs.TwoStacks` | senza/cli.py:424-425 | doctest: `['foobar-stack', '1', 'other-stack']` |
| `CliFormat.KeyValConvert` | senza/cli.py:123-132 | a string converts exactly when it has an '=', splitting at the first one; a pair passes through; otherwise the conversion fails |
| `CliFormat.KeyValRoundTrip` | senza/cli.py:124-129 | converting `KEY=VAL` gives back key and value, whatever '=' the value holds |
| `CliFormat.FormatResourceType` | senza/cli.py:599-602 | strips one leading `AWS::`; anything else, None and "" included, is returned unchanged |
| `CliFormat.StripsOnePrefix` | senza/cli.py:600-601 | exactly one prefix is removed, for any rest |
| `CliFormat.StripsOnlyOnce` | senza/cli.py:600-601 | `AWS::AWS::EC2::Instance` becomes `AWS::EC2::Instance` |
| `CliFormat.ConsoleLineStyle` | senza/cli.py:1026-1035 | red exactly on `ERROR:`; yellow on `WARNING:` without `ERROR:`; green likewise on `SUCCESS:`; bold exactly when one of the four keywords occurs; no style otherwise |
| `CliFormat.KeywordAnywhere` | senza/cli.py:1026-1033 | a keyword counts wherever it occurs in the line |
| `CliFormat.PlainLine` | senza/cli.py:1010-1011 | doctest: `foo` has no style |
| `CliFormat.ErrorLine` | senza/cli.py:1013-1014 | doctest: `ERROR:` is red |
| `CliFormat.WarningLine` | senza/cli.py:1016-1017 | doctest: `WARNING:` is yellow |
| `CliFormat.SuccessLine` | senza/cli.py:1019-1020 | doctest: `SUCCESS:` is green |
| `CliFormat.InfoLine` | senza/cli.py:1022-1023 | doctest: `INFO:` is bold |
| `CliFormat.IsCredentialsExpired` | senza/cli.py:252-253 | true exactly for the codes `ExpiredToken` and `RequestExpired` |
| `CliFormat.CheckStackName` | senza/cli.py:502-505 | accepts `<name>-<version>` exactly when it is at most 128 characters; otherwise refuses it, naming it |
| `CliFormat.VersionAfterLastDash` | senza/cli.py:502 | a version without '-' is what follows the last '-' of the stack name |
| `CliFormat.StackNameInjective` | senza/cli.py:502 | with '-'-free versions, different name/version pairs never share a stack name |
| `CliFormat.LongVersionRefused` | tests/test_cli.py:881-884 | `test` with `abcde` repeated 25 times is refused |
| `CliFormat.ShortNameAccepted` | tests/test_cli.py:876-879 | `test` with version `1` is accepted as `test-1` |
| `CliTrace.BothPositional` | tests/test_cli.py:876-879 | two positional values bind both keys |
| `CliTrace.NoneGiven` | tests/test_cli.py:886-888 | no argument reports the first key missing |
| `CliTrace.TooMany` | tests/test_cli.py:890-893 | more arguments than keys is "too many parameters" |
| `CliTrace.KeywordValueWithEquals` | tests/test_cli.py:900-904 | only the first '=' separates key and value |
| `CliTrace.UnknownKeyword` | tests/test_cli.py:906-909 | a keyword naming no declared key is unrecognized |
| `CliTrace.PositionalThenKeyword` | tests/test_cli.py:911-914 | a keyword for a key bound by position is "specified multiple times" |
| `CliTrace.KeywordTwice` | tests/test_cli.py:916-919 | the same keyword twice is "specified multiple times" |
| `CliTrace.KeywordThenPositionalArg` | tests/test_cli.py:921-924 | a positional argument after a keyword is refused |
| `CliTrace.DefaultUsed` | tests/test_cli.py:333-336 | a key left out takes its default |
| `CliTrace.DefaultOverridden` | tests/test_cli.py:338-342 | a key given a value does not take its default |
| `CliTrace.CreateMissing` | tests/test_cli.py:886-888 | `create` with no parameter: MyParam is missing |
| `CliTrace.CreateTooMany` | tests/test_cli.py:890-893 | `create` with p1..p4 has too many parameters |
| `CliTrace.CreateKeyword` | tests/test_cli.py:895-898 | `create` binds `ExtraParam=extra-param-value` |
| `CliTrace.CreateKeywordWithEquals` | tests/test_cli.py:900-904 | `create` binds ExtraParam to `extra=param=value` |
| `CliTrace.CreateUnknown` | tests/test_cli.py:906-909 | `create` refuses `UnknownParam=value` |
| `CliTrace.CreatePositionalTwice` | tests/test_cli.py:911-914 | `create` refuses MyParam given by position and by keyword |
| `CliTrace.CreateKeywordTwice` | tests/test_cli.py:916-919 | `create` refuses MyParam given twice by keyword |
| `CliTrace.CreatePositionalAfterKeyword` | tests/test_cli.py:921-924 | `create` refuses a positional argument after a keyword |
| `CliTrace.PrintDefault` | tests/test_cli.py:333-336 | `print` fills DefParam with DefValue |
| `CliTrace.PrintOverride` | tests/test_cli.py:338-342 | `print` binds DefParam to the given value |
| `LexOrder.LexIrreflexive` | senza/traffic.py:79 | no version label sorts below itself |
| `LexOrder.LexAsymmetric` | senza/traffic.py:79 | string order is asymmetric |
| `LexOrder.LexTransitive` | senza/traffic.py:79 | string order is transitive |
| `LexOrder.LexTrichotomy` | senza/traffic.py:79 | two labels are equal, or one sorts below the other |
| `LexOrder.LexAtLeastTransitive` | senza/traffic.py:79 | `>=` on labels is transitive, as the descending sort needs |

## Left out

- Route53, CloudFormation and ELB calls are not modelled. This covers `get_stack_versions`, `get_zone`, `get_records` with its pagination, and the `change_resource_record_sets` call. The stack versions and the listed records are parameters. The batch is returned as a value. `ApplyBatch` states how Route53 executes it; Route53's own checks (a DELETE whose values differ, a batch that fails as a whole) are not modelled.
- The hosted zone lookup is reduced to the domain split that names it, because the zone itself comes from AWS.
- `dump_traffic_changes`, `print_version_traffic`, and the `action`/`ok`/`warning` messages only print, so they are not modelled.
- The percentage is taken already in half-percent units, so the float conversion `int(percentage * PERCENT_RESOLUTION)` at senza/traffic.py:312 is not modelled. Floating point is out of scope.
- The `TrafficTrace` lemmas follow the weights the test expects, not its mocked boto objects.
- The source assumes three things, which are stated as requires:
  - at most one record per set identifier and DNS name;
  - every record of the name belongs to a known stack version, or sorting by label raises a KeyError;
  - no stored weight is negative.
- A record without a `Weight` key (a KeyError in the source) is not modelled. A record's weight is `None` or a number.
- A stack version without a load balancer (`lb_dns_name` of None) is not modelled. The load balancer name is a string.
- Traffic.ChangeVersionTraffic: when `set_new_weights` raises part-way, the contract does not say which records were already overwritten. It says only that the result is the error.
- TrafficChanges.SetNewWeights: likewise, the state of the records after a failure is not stated.
- In `parse_args`, each entry of `Parameters` declares one key. The source allows several keys per entry.
- Defaults are taken as already rendered, because pystache rendering with the account info is not modelled.
- `TemplateArguments` and the region and version arguments are not modelled. The result is the map of bound parameters.
- `get_stack_refs` does not open or parse YAML files. A map from readable definition paths to their `StackName` stands for that. Any other reference behaves as an unreadable file.
- `KeyValParamType.convert` does not model a value that is neither a string nor already a pair.
- The rest of `create` (template evaluation, the stack-exists check, the CloudFormation call) and every other command are not modelled. The only part kept is the 128-character stack-name check.
- Where the source and its description disagree, the model follows the source:
  - `compensate` truncates `error / partial_count` toward zero and then forces a magnitude of at least 1. It does not round away from zero.
  - `compensate` can give weight to a version that had none (`CompensationRevives`). Only `calculate_new_weights` leaves such versions at 0.
  - The guard `calculation_error < FULL_PERCENTAGE` never fails (`ErrorBelowFull`).
  - The fallback onto the target fires after a single pass, not only when every other version is at its floor. A version that took the step once may still have room (`CompensatedFallback`, `FallbackWithRoom`).
  - Python's `$` also accepts one trailing newline, so the version and stack-name patterns do too (`CliText.Anchored`).
