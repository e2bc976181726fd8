# cljgo, modelled and proved in Dafny

cljgo is a Clojure implementation in Go. This project models the parts of it whose behaviour is easiest to get
wrong and proves what they promise:

* **`core.match` compiler** (`Match*.dfy`): clauses as written, their parse into pattern rows, the decision-tree
  compiler, the emitted forms, an evaluator for them, and clauses tried top to bottom. The emitted form means the clauses,
  from the written ones on.
* **Analyzer** (`Analyzer*.dfy`): read forms to syntax trees. Acceptance and result are determined by three
  properties of the tree: it reads the form with lexical scope, every `recur` is well placed, its numbers are the
  next unused ones.
* **Date patterns and cron** (`Text.dfy`, `Calendar.dfy`, `Date*.dfy`, `Cron*.dfy`): a printer and a parser over one
  operation list are inverse to each other; the next-fire search finds the least matching minute and fails exactly when
  an explicit condition holds.
* **Multimethods** (`Dispatch.dfy`, `MultiMethods.dfy`, `MethodChoice.dfy`), **lazy sequences** (`LazySeqs.dfy`, `LazyBuild.dfy`,
  `Reduce.dfy`), **namespace refer** (`Refer.dfy`): dispatch with preferences over a hierarchy, chunked sequence
  functions against plain lists, transducer fusion, and the bulk refer against the per-symbol loop.
* **Concurrent steps** (`Seque.dfy`, `Exec.dfy`, `Spawn.dfy`, `Metrics.dfy`, `Registry.dfy`, `RouteCounters.dfy`):
  transition systems; each theorem speaks of every state of every run.

Code that computes is modelled as functions. Code that updates variables in loops or fields of an object is modelled as
methods and classes (`MatchCompiler.Compiler`, `AnalyzerImpl.Analyzer`, `DateOps.Memo`, `MultiMethods.MultiFn`,
`Refer.Runtime`, `RouteCounters.RouteMetric`), each proved equal to a function or a relation about which the theorems are.

`dafny verify dfyconfig.toml` checks everything.

## Where code and comments differ

The model follows the code.

* `& _` in a sequence pattern is parsed as no rest at all, so it fixes the length
  (`MatchParse.AnonymousRestIff`). A sequence pattern with an empty `:or` for a head accepts the empty vector
  (`MatchParse.SeqExactIff` covers both).
* `[1 2]` and `[1 & r]` are different constructors though they overlap, so rows are lost
  (`MatchLimits.DisjointIffFaithful` says for which constructors).
* The internal marker `::not-found` is said never to reach an action (pkg/bri/match.go:801-802). Through a clause's own
  names it does not; through an outer name that an earlier clause captured it does (`MatchLimits.CapturedMarker`,
  `MatchTheorems.MarkerOnlyCaptured`).
* A doubled quote inside a quoted date literal is not a quote (`DateOps.DoubledQuoteIsLost`), and a byte beyond ASCII
  outside quotes is re-encoded (`DateOps.UnquotedIffAscii`).
* A cron step may push the 64-bit counter past its end; that is an error even though every value was in range
  (`CronParse.FieldIsUnion`). Numbers may carry a sign.
* `prefer-method` refuses only what is already preferred the other way at or above the two values, so two values can come
  to be preferred over each other through the hierarchy (`MultiMethods.HierarchyConflict`; `MultiMethods.StaysFreeIff`
  says when).
* A method more specific than every other match does not always run: two of the others can clash before it is met
  (`MethodChoice.SpecificCanBeAmbiguous`; `MethodChoice.MostSpecificRunsIff` says when).
* `reference` replaces a mapping that is neither the namespace's own nor the same var; the bulk refer declines exactly
  then. Its cache does not see a var becoming private (`Refer.StaleSnapshot`).
* The drains of `exec` see the end of the pipe when the last holder of the write end is gone, which is not always when
  the child exits (`Exec.InTimeWaitsForHolders`).

## Model

| member | source | states |
|---|---|---|
| MatchTheorems.MatchIsSafe | pkg/bri/match.go:379-464 | for every clause list: the evaluated output never gets stuck on an unbound symbol, a missing thunk or an `nth` out of range; an action runs only for a clause whose patterns match and whose guards were true; a name of the clause shows one of its bindings, any other its outer value or what an earlier clause bound it to |
| MatchTheorems.MatchRunsFirst | pkg/bri/match.go:129-153 | with constructors disjoint in every column, hereditarily, names bound once in a clause and no captured name in a guard, the first clause that accepts runs with its own bindings |
| MatchTheorems.MatchIsFirstClause | pkg/bri/match.go:129-153 | if moreover actions mention no captured name, the output evaluates to exactly what the clauses tried top to bottom give |
| MatchTheorems.MatchIsSound | pkg/bri/match.go:379-464 | whatever the constructors, if no name is bound twice in a clause or captured, an action runs only for a clause that accepts, with exactly its bindings |
| MatchSurfaceTheorems.MatchIsFirstReading | pkg/bri/match.go:129-218 | from the clauses as written: evaluating the emitted form tries the readings of the clauses in order, `:or` left to right with the last pattern varying fastest; the first whose shape fits and whose guards hold of the values they stand at runs its action with the names as written |
| MatchSurface.ParseClausesRenders | pkg/bri/match.go:184-218 | parsing the clauses gives one row for each reading, in order, and each row renders its reading |
| MatchSurface.RenderGuards | pkg/bri/match.go:303-352 | the guards of a parsed pattern hold exactly when the predicates written are true of the values their patterns stand at, also where the parser makes up the name |
| MatchSurface.RenderBinds | pkg/bri/match.go:223-352 | a parsed pattern binds what its reading binds, besides names made up for guards |
| MatchSurfaceTheorems.ParseNumbers | pkg/bri/match.go:341-352 | the names made up for guards are new counter values, and no two patterns of one row share one |
| MatchPlain.FitsIff | pkg/bri/match.go:684-712 | of values in which no map holds the keyword `:clojure.core.match/not-found`, matching is the plain fit: a key is there or it is not, and a missing key refuses a bare value pattern |
| MatchPlain.FitsWrittenIff | pkg/bri/match.go:223-360 | the same of patterns as written, so of what `MatchIsFirstReading` runs |
| MatchPlain.ReadingAcceptsIff | pkg/bri/match.go:129-218 | a reading accepts ordinary values exactly when its patterns fit them and its guards hold |
| MatchPlain.OrInOrder | pkg/bri/match.go:300-340 | the readings of an `:or` are those of its first alternative, then those of the others |
| MatchPlain.ClausesInOrder | pkg/bri/match.go:184-218 | the readings of earlier clauses come first |
| MatchPlain.KeyPatternRuns | pkg/bri/match.go:619-645 | the emitted code for `[{k x}] x` gives the entry at k of every map that has one, other than that keyword, and does not match a map without |
| MatchPlain.RestPatternRuns | pkg/bri/match.go:652-733 | the emitted code for `[[_ & r]] r` gives the items after the first of every nonempty vector, and matches nothing else |
| MatchTheorems.MarkerStaysInside | pkg/bri/match.go:791-818 | for every clause list, whenever the emitted code runs an action, no name its clause gives a map key shows `::not-found`; if the clause binds no name twice, each shows the value at the key, or nil for an absent key |
| MatchTheorems.MarkerOnlyCaptured | pkg/bri/match.go:791-818 | when neither the scope nor the matched values hold `::not-found`, an action shows it only through a name that its clause does not bind and an earlier clause gives a map key |
| MatchLimits.CapturedMarker | pkg/bri/match.go:801-811 | and then it can: `[{:a (x :guard no)}]` followed by `[_]` with an outer `x`, on a map without `:a`, shows the later action `::not-found` |
| MatchEval.UnsentinelMeans | pkg/bri/match.go:803-818 | the code wrapped around an action turns the marker into nil for exactly the names bound to map keys |
| MatchCorrect.LeafAction | pkg/bri/match.go:387-411 | a leaf's action runs with each of the row's names showing one of its bindings, the marker turned into nil for names of map keys, and other names showing what they did outside |
| MatchCorrect.CompileMeans | pkg/bri/match.go:379-464 | for every matrix, world, fail form and bindings left by earlier rows, the compiled tree answers as its rows do, the fail form standing for "no row" |
| MatchCorrect.LeafMeans | pkg/bri/match.go:387-411 | a row of wildcards: its tests decide between its action and the remaining rows |
| MatchCorrect.DispatchMeans | pkg/bri/match.go:414-463 | a column with constructors: the branch of the accepting constructor, else the default behind the fail thunk |
| MatchCorrect.BranchesMean | pkg/bri/match.go:433-456 | the test chain reaches the first constructor that accepts the value and no other |
| MatchCompile.SpecializeShrinks | pkg/bri/match.go:652-733 | specializing lowers the total of non-wildcard nodes: half of the termination measure |
| MatchCompile.DefaultShrinks | pkg/bri/match.go:752-772 | the default matrix never has more nodes or rows, and has fewer of both when a row had a constructor in the column |
| MatchCompile.DistinctCtorsExact | pkg/bri/match.go:538-586 | the constructors of a column are pairwise distinct and exactly those heading its rows; all map patterns are merged into one, with exactly the keys some map pattern of the column names |
| MatchRows.MapColumnMatches | pkg/bri/match.go:684-712 | after merging, a map pattern matches exactly when the realigned patterns and its own presence tests do |
| MatchRows.MapColumnBinds | pkg/bri/match.go:684-712 | and binds exactly the same names to the same values |
| MatchRows.MapColumnStatic | pkg/bri/match.go:684-712 | and keeps its guards and names |
| MatchSpecialize.SpecializeRowSame | pkg/bri/match.go:652-733 | a specialized row accepts and binds over the sub-values what the row did over the value |
| MatchSpecialize.DefaultRowSame | pkg/bri/match.go:752-772 | a default row accepts and binds what the row did |
| MatchSpecialize.CtorsDisjointExact | pkg/bri/match.go:501-522 | the syntactic disjointness of two constructors is exactly that no value is accepted by both |
| MatchEval.CtorTestMeans | pkg/bri/match.go:589-614 | the emitted test of a constructor evaluates to whether it accepts the value |
| MatchEval.AccessMeans | pkg/bri/match.go:619-645 | under that test every emitted access is in range and gives the sub-value |
| MatchLimits.UsedIsExact | pkg/bri/match.go:379-463 | the returned flag is set exactly when the fail form occurs in the output; when clear the output does not depend on it |
| MatchLimits.DisjointIffFaithful | pkg/bri/match.go:501-522 | for two sequence constructors the compiled tree agrees with the clauses on every value exactly when they are disjoint |
| MatchLimits.OverlapLosesRow | pkg/bri/match.go:677-679 | an overlapping value whose first clause's guard fails is lost to the second clause |
| MatchLimits.CaptureChangesResult | pkg/bri/match.go:405-411 | the code after a failed guard sits inside the failed row's `let`, which can change a later clause's answer |
| MatchLimits.TwiceBoundDependsOnOthers | pkg/bri/match.go:752-785 | after a literal clause that does not match, the action of `[x x]` sees the second value if the literal is in the first column and the first value if it is in the second: two compiled clause lists with the same `[x x]` |
| MatchParse.ParseIsExact | pkg/bri/match.go:223-360 | the alternatives of a parsed pattern match exactly the values its shape describes, unless a sequence pattern in it has `& _` or a head without alternatives |
| MatchParse.RowsOfClauseExact | pkg/bri/match.go:187-218 | the rows a clause expands to match a tuple exactly when the clause does |
| MatchParse.CartesianIs | pkg/bri/match.go:847-860 | the product of the columns holds exactly the choices of one alternative per column |
| MatchParse.CartesianOrder | pkg/bri/match.go:847-860 | in lexicographic order, the last column fastest |
| MatchParse.AnonymousRestIff | pkg/bri/match.go:246-277 | a sequence pattern ending in `& _` accepts only values of exactly its number of heads |
| MatchParse.SeqExactIff | pkg/bri/match.go:246-277 | a sequence pattern over heads that parse exactly does so itself if and only if it has no `& _` and every head has an alternative |
| MatchParse.EmptyHeadMatchesEmpty | pkg/bri/match.go:268-276 | with a head without alternatives it describes nothing and accepts the empty vector |
| MatchCompiler.Cartesian | pkg/bri/match.go:847-860 | the nested loops compute the product |
| MatchCompiler.DistinctCtors | pkg/bri/match.go:538-586 | the loop with its mutated key list computes the column's constructors |
| MatchCompiler.Specialize | pkg/bri/match.go:652-733 | the loop over rows computes the specialized matrix |
| MatchCompiler.DefaultMatrix | pkg/bri/match.go:752-772 | the loop over rows computes the default matrix |
| MatchCompiler.Compiler.Compile | pkg/bri/match.go:379-464 | the compiler object, its gensym counter and its map-key set updated in place, emits the function's tree |
| MatchCompiler.Compiler.CompileMatch | pkg/bri/match.go:129-153 | and so does its entry point |
| AnalyzerTheorems.AnalyzeIsExact | pkg/analyzer/analyzer.go:122-265 | a form is accepted with a tree exactly when the tree reads the form with lexical scope (parameter vectors, clauses, method shorthands and call shapes said of the forms themselves), its recurs are well placed and its numbers are the next unused ones: both directions, so the tree is unique |
| AnalyzerTheorems.SessionDistinct | pkg/analyzer/analyzer.go:115-120 | over any sequence of analyses, failing ones included, all loop and method ids and all binding sites are distinct |
| AnalyzerTheorems.SpecialsNotShadowed | pkg/analyzer/analyzer.go:231-265 | a call of an unqualified special is that special whatever the locals and macros are |
| AnalyzerTheorems.FuelDoesNotMatter | pkg/analyzer/analyzer.go:127-144 | two accepted runs of different depth agree |
| AnalyzerShapes.ParamsIff | pkg/analyzer/analyzer.go:891-919 | a parameter vector is read as these names, not variadic, exactly when it is their plain symbols and none is `&`; as variadic exactly when `&` stands just before the last and nowhere else |
| AnalyzerShapes.HeadIff | pkg/analyzer/analyzer.go:231-265 | a call is expanded, at most a thousand times, until its head is one of the fifteen specials or `clojure.core/binding`, until the expander leaves it, or until it is no call; the outcome is the one such chain |
| AnalyzerShapes.ClauseIs | pkg/analyzer/analyzer.go:709-736 | a form is a clause of `try` exactly when it is a call of unqualified `catch` or `finally` |
| AnalyzerProofs.FormGood | pkg/analyzer/analyzer.go:127-265 | an accepted form's tree has every name read as its innermost binder and every recur in tail position of its own frame |
| AnalyzerProofs.LetOrLoopGood | pkg/analyzer/analyzer.go:479-527 | bindings are sequential; a `loop*` body is a fresh recur target of its own arity |
| AnalyzerProofs.RecurGood | pkg/analyzer/analyzer.go:533-557 | an accepted recur carries its frame's id, has its arity, and its arguments hold no recur to it |
| AnalyzerProofs.BindingGood | pkg/analyzer/analyzer.go:611-656 | `binding` names vars, values see none of the bindings, and no recur crosses it |
| AnalyzerProofs.TryGood | pkg/analyzer/analyzer.go:693-743 | body, catches in order, at most one finally, last; no recur leaves any of them |
| AnalyzerProofs.FnStarGood | pkg/analyzer/analyzer.go:804-878 | the self-name is in scope of the methods only; each method is its own recur target |
| AnalyzerProofs.OverloadsExact | pkg/analyzer/analyzer.go:836-870 | the counters accept exactly the method sets with at most one variadic, different fixed arities, none above the variadic one |
| AnalyzerExact.FormExact | pkg/analyzer/analyzer.go:127-265 | a tree with the three properties is what the analyzer returns: no such form is rejected |
| AnalyzerExact.ClausesExact | pkg/analyzer/analyzer.go:709-736 | the clause loop of `try` accepts every well-ordered list of clauses |
| AnalyzerImpl.Analyzer.Analyze | pkg/analyzer/analyzer.go:122-125 | the analyzer object, its counters updated in place, returns what the functions do |
| AnalyzerImpl.Analyzer.AnalyzeSeq | pkg/analyzer/analyzer.go:231-265 | the expansion loop, specials first on every round, at most a thousand rounds |
| AnalyzerImpl.Analyzer.ParseBinds | pkg/analyzer/analyzer.go:496-514 | the binding loop |
| AnalyzerImpl.Analyzer.ParseTry | pkg/analyzer/analyzer.go:693-743 | the clause loop |
| AnalyzerImpl.Analyzer.ParseOverloads | pkg/analyzer/analyzer.go:836-870 | the method loop on its arity counters |
| AnalyzerImpl.Analyzer.ParseParams | pkg/analyzer/analyzer.go:891-919 | the parameter loop with its `&` |
| Calendar.CivilOfDayNumber | pkg/bri/date_pattern.go:570-580 | a real date's day number leads back to that date |
| Calendar.NextDay | pkg/bri/date_pattern.go:570-580 | the day after is the next of its month or the first of the next one, months having their Gregorian lengths |
| DateLetters.EpochIs | pkg/bri/date_pattern.go:132-182 | instant 0 in UTC is Thursday 1 January 1970, midnight |
| DateLetters.StampIs | pkg/bri/date_pattern.go:132-182 | h:mi:sec of the k-th day after the epoch, by a zone's clock, is the instant that many seconds on less the offset |
| DateLetters.NamesAre | pkg/bri/date_pattern.go:132-182 | the names of the months and days by number |
| DateLetters.FiguresAre | pkg/bri/date_pattern.go:97-105 | a number is printed in decimal figures |
| DateLetters.PadIsZeros | pkg/bri/date_pattern.go:97-105 | padding puts zeros in front, exactly to the width |
| DateLetters.PatternPrints | pkg/bri/date_pattern.go:132-348 | a pattern compiles exactly when each run it spells is of a known letter and length, and then prints what each run says of the instant, one after another: H the hour, m the minute, M the month or its name, and so on by letter |
| DateOps.LexExact | pkg/bri/date_pattern.go:195-226 | a pattern lexes to a list of runs exactly when it is those runs written one after another, so to one list only |
| DateOps.DoubledQuoteIsLost | pkg/bri/date_pattern.go:199-211 | inside quotes a doubled quote separates two literals instead of standing for a quote |
| DateOps.UnquotedIffAscii | pkg/bri/date_pattern.go:213-217 | an unquoted non-letter byte stands for itself exactly when it is ASCII |
| DateOps.Reencoded | pkg/bri/date_pattern.go:213-217 | any other byte becomes the two bytes of its code point in UTF-8 |
| DateOps.CompiledIsWellFormed | pkg/bri/date_pattern.go:253-348 | compiled operations have widths in range and no empty literal |
| DateOps.Lex | pkg/bri/date_pattern.go:195-226 | the index loop computes the runs |
| DateOps.Compile | pkg/bri/date_pattern.go:253-275 | the loop over runs computes the operations or the first refusal |
| DateOps.Memo.Lookup | pkg/bri/date_pattern.go:370-378 | whatever was looked up before, the answer is the compiler's; failures are remembered too |
| DateFormat.Format | pkg/bri/date_pattern.go:132-182 | the buffer loop prints the concatenation of the operations' texts |
| DateFormat.Parse | pkg/bri/date_pattern.go:459-582 | the loop on the rest of the text reads operation by operation, with the refusals in the code's order |
| DateLetters.PatternRoundTrip | pkg/bri/date_pattern.go:132-582 | for every pattern whose runs name year, month and day (and `a` with `h`), no open-ended run before a possible digit, and every instant of years 0 to 9999 (2000 to 2099 with `yy`), in UTC or any whole-minute zone: parsing what the runs say gives the wall-clock time back, the minute if and only if a run is of m, likewise hour (H, h), second (s) and offset (X, Z), the fraction cut to the last run of S, and zero for what no run says |
| DateLetters.RefusesAll | pkg/bri/date_pattern.go:402-431 | a pattern without a letter for the year, the month or the day, or with h but no a, refuses every text, for the first of these reasons |
| DateRoundTrip.FormatThenParse | pkg/bri/date_pattern.go:132-582 | the same of operation lists |
| DateRoundTrip.FullPatternIsExact | pkg/bri/date_pattern.go:132-582 | a pattern naming every field, the offset included, gives back the very instant |
| DateRoundTrip.OffsetBack | pkg/bri/date_pattern.go:107-128 | every printable offset is read back, in each of the four forms |
| DateRoundTrip.OpBack | pkg/bri/date_pattern.go:468-556 | each operation reads its own text back, whatever follows, and sets its field to what was printed |
| DateRoundTrip.NameBack | pkg/bri/date_pattern.go:586-597 | the first name the text starts with is the name printed |
| DateRoundTrip.NanosText | pkg/bri/date_pattern.go:167-170 | adding a guard digit and dropping it is padding to nine places |
| DateLimits.DelimitedIffRoundTrips | pkg/bri/date_pattern.go:132-582 | every UTC instant a parseable pattern can show survives printing and parsing if and only if no unpadded number is followed by what can start with a digit |
| DateLimits.UndelimitedFails | pkg/bri/date_pattern.go:442-455 | any other pattern refuses its own text of Monday 7 May 2001, 01:01:01: the greedy number takes a character that a later operation needs |
| DateLimits.HourOffsetIff | pkg/bri/date_pattern.go:599-635 | a whole-hour offset in the hour-only form is read back exactly when no two digits follow it |
| DateReprint.ParseThenFormat | pkg/bri/date_pattern.go:459-582 | with padded fields, no offset, no field twice, and `a` exactly with `h`: a text that parses is reprinted exactly if and only if its seconds are not written 60 |
| DateReprint.OpsForth | pkg/bri/date_pattern.go:468-556 | a text read to its end is the text of the final fields |
| DateReprint.DateStands | pkg/bri/date_pattern.go:570-580 | the day and month check leaves only real dates, and keeps the year |
| CronParse.FieldIsUnion | pkg/bri/os_cron.go:48-93 | a field parses exactly when its parts do, stay in range and within 64 bits and give something; it is then the union of its list, range and step parts with 7 folded to 0 |
| CronParse.FillIs | pkg/bri/os_cron.go:78-87 | the stepping loop adds exactly the progression, or fails exactly when a value is out of range or the next one past 64 bits |
| CronParse.StarIsFull | pkg/bri/os_cron.go:61-62 | a literal star is the whole range |
| CronParse.SpecIsWellFormed | pkg/bri/os_cron.go:100-123 | every parsed expression has nonempty fields in range |
| Text.SplitIs | pkg/bri/os_cron.go:50 | splitting at a separator loses nothing and leaves no separator in a part |
| CronText.ItemIff | pkg/bri/os_cron.go:51-77 | a part is read as lo, hi and step exactly when it is written `*`, `a` or `a-b` with an optional `/step`, in decimal figures with at most one sign |
| CronText.FieldIff | pkg/bri/os_cron.go:48-93 | a field is accepted exactly when its parts are so written, list nothing out of range and stay clear of the largest number; it holds lo, lo + step, ... up to hi of its parts, 7 as 0 for the day of the week |
| CronText.WordsAre | pkg/bri/os_cron.go:101-104 | the words are what stands between white space |
| CronText.SpacedBySpaces | pkg/bri/os_cron.go:101-104 | five words one space apart are such words |
| CronText.FiguresCount | pkg/bri/os_cron.go:57-76 | the last figure of a number counts once and those before it ten times |
| CronText.FiresAsWritten | pkg/bri/os_cron.go:100-138 | an expression is accepted exactly when its five words stand in their ranges, and fires at exactly the minutes whose local minute is in the first word's field, hour in the second's, month in the fourth's, and whose day obeys the third and fifth |
| CronText.DailyFires | pkg/bri/os_cron.go:143-158 | `mi h * * *` fires exactly when the local clock shows h:mi |
| CronParse.ParseField | pkg/bri/os_cron.go:48-93 | the nested loops compute the field |
| CronSearch.CronNext | pkg/bri/os_cron.go:143-158 | the result is a whole minute strictly later, at most 2635200 minutes on, that fires, with no earlier one in between; an error means none in that window fires; it fails on a well-formed expression exactly under the condition below |
| CronSearch.FailsExactly | pkg/bri/os_cron.go:128-158 | the search finds nothing exactly when day-of-week is a literal star, no named month and day make a date of a common year, and no 29 February it names fires in the window |
| CronSearch.LeapYearNear | pkg/bri/os_cron.go:143-158 | a spec naming 29 February is served whenever one of the next four years is a leap year |
| CronSearch.DateMatches | pkg/bri/os_cron.go:128-138 | the day rule said of a date: either field when both are restricted, else both |
| Dispatch.PrefersIff | pkg/corelib/multimethod_builtins.go:120-141 | over any acyclic hierarchy x is preferred over y exactly when some ancestor-or-self of x is recorded over one of y |
| Dispatch.AlwaysPicksIff | pkg/corelib/multimethod_builtins.go:153-173 | every order of the table gives the same method exactly when matches are comparable and it strictly dominates the others |
| Dispatch.NeverClashesIff | pkg/corelib/multimethod_builtins.go:153-173 | no order of the table is ambiguous exactly when any two matches are comparable |
| Dispatch.TotalOrderDispatch | pkg/corelib/multimethod_builtins.go:143-173 | when dominance is a total order on the matching keys of the table there is a greatest match and every order of the table finds it |
| MethodChoice.NeverAmbiguousIff | pkg/corelib/multimethod_builtins.go:143-173 | no order of the table is ambiguous exactly when of any two matching keys one isa the other, or it or an ancestor is recorded over the other or its ancestor |
| MethodChoice.MostSpecificRunsIff | pkg/corelib/multimethod_builtins.go:143-173 | without preferences, when one matching key is strictly below every other: every order of the table runs its method if and only if the matching keys are pairwise related by isa |
| MethodChoice.SpecificCanBeAmbiguous | pkg/corelib/multimethod_builtins.go:153-173 | with a key derived from two unrelated ones, its method runs when met first and the call is ambiguous when it is met last |
| MethodChoice.PreferenceDecides | pkg/corelib/multimethod_builtins.go:120-173 | of two matching keys unrelated by isa, the one with a recorded preference runs, and the call is ambiguous without one, in every order of the table |
| MethodChoice.MutualLastRuns | pkg/corelib/multimethod_builtins.go:153-173 | of two preferred over each other the one met last runs |
| MethodChoice.ExactRuns | pkg/corelib/multimethod_builtins.go:216-219 | a key equal to the dispatch value wins |
| MethodChoice.DefaultRuns | pkg/corelib/multimethod_builtins.go:216-224 | when no key matches the default's method runs, and none without it |
| MultiMethods.OrderMatters | pkg/corelib/multimethod_builtins.go:153-173 | a value under three unrelated ones with 1 over 2 and 2 over 3 preferred: one order of the table dispatches and another is ambiguous |
| MultiMethods.DispatchIgnoresOrder | pkg/corelib/multimethod_builtins.go:216-224 | when dominance is a total order on the matching keys, method lookup does not depend on the order of the table and is never ambiguous |
| MultiMethods.StaysFreeIff | pkg/corelib/multimethod_builtins.go:179-194 | recording x over y in a table under which no two values are preferred over each other keeps it so if and only if x over y crosses neither itself nor a recorded preference: no two different values lie below the four ends crosswise |
| MultiMethods.NoMutualIff | pkg/corelib/multimethod_builtins.go:120-141 | no two values are preferred over each other exactly when no two recorded preferences cross |
| MultiMethods.PreferAdds | pkg/corelib/multimethod_builtins.go:179-194 | after recording x over y, a is preferred over b exactly if it was or a is at or below x and b at or below y |
| MultiMethods.RefusedIff | pkg/corelib/multimethod_builtins.go:182-185 | the check made is the crossing at x and y themselves |
| MultiMethods.HierarchyConflict | pkg/corelib/multimethod_builtins.go:179-194 | so two calls that are both accepted can leave two values preferred over each other |
| MultiMethods.MultiFn.PrefersVal | pkg/corelib/multimethod_builtins.go:120-141 | the two parent loops compute the preference |
| MultiMethods.MultiFn.BestIsaMethod | pkg/corelib/multimethod_builtins.go:153-173 | the loop on the best index computes the scan |
| MultiMethods.MultiFn.AddMethod | pkg/corelib/multimethod_builtins.go:57-67 | the table as a map gains the method, other entries keep their order |
| MultiMethods.MultiFn.RemoveMethod | pkg/corelib/multimethod_builtins.go:70-79 | the table as a map loses exactly the method |
| MultiMethods.MultiFn.RemoveAllMethods | pkg/corelib/multimethod_builtins.go:206-211 | the table is empty |
| MultiMethods.MultiFn.MethodTable | pkg/corelib/multimethod_builtins.go:226-236 | the loop over the entries gives the table as a map |
| MultiMethods.MultiFn.PreferMethod | pkg/corelib/multimethod_builtins.go:179-194 | adds exactly one preference unless the opposite holds; direct preferences never contradict each other |
| MultiMethods.MultiFn.FindMethod | pkg/corelib/multimethod_builtins.go:216-224 | exact match, then the scan, then the default |
| LazySeqs.MapIs | pkg/corelib/hotpath_builtins.go:34-61 | however the source is chunked, and however much of it there is yet, map gives the mapped elements, as open as the source |
| LazySeqs.MapAt | pkg/corelib/hotpath_builtins.go:34-61 | the list map, element by element |
| LazySeqs.FilterAt | pkg/corelib/hotpath_builtins.go:139-178 | the list filter keeps the accepted elements and no others, each after as many as are accepted before it |
| LazySeqs.KeepAt | pkg/corelib/hotpath_builtins.go:217-249 | the list keep, likewise, of the values given |
| LazySeqs.FilterIs | pkg/corelib/hotpath_builtins.go:139-178 | the same for filter, which never emits an empty chunk |
| LazySeqs.KeepIs | pkg/corelib/hotpath_builtins.go:217-249 | the same for keep |
| LazyBuild.BuildFilter | pkg/corelib/hotpath_builtins.go:139-178 | the scan past rejects with its chunk buffer builds the lazy sequence |
| LazyBuild.BuildKeep | pkg/corelib/hotpath_builtins.go:217-249 | likewise |
| LazyBuild.BuildMap | pkg/corelib/hotpath_builtins.go:34-61 | likewise |
| Reduce.Walk | pkg/corelib/hotpath_builtins.go:305-337 | the chunk-aware loop makes the same calls in the same order as a fold over the elements, stopping at the first `reduced` |
| Reduce.Reduce2 | pkg/corelib/hotpath_builtins.go:289-297 | without an initial value the first element is it, and an empty source asks the function |
| Reduce.Reduce3 | pkg/corelib/hotpath_builtins.go:298-337 | with one the whole source is folded from it |
| Reduce.FoldCalls | pkg/corelib/hotpath_builtins.go:305-337 | the fold calls the function on one element after another, each with what the call before left, and stops at the first `reduced`, whose content is the answer |
| Reduce.Fusion | pkg/corelib/hotpath_builtins.go:97-120 | reducing with composed map, filter and keep transducers equals reducing over the pipeline of sequence functions: calls, order, answer and early stop |
| Reduce.FusionOne | pkg/corelib/hotpath_builtins.go:182-201 | the same for one transducer |
| Reduce.MapThenFilter | pkg/corelib/hotpath_builtins.go:97-120 | `(comp (map f) (filter p))` folds over the elements mapped first and then filtered |
| Reduce.CompOfTwo | pkg/corelib/hotpath_builtins.go:363-380 | `comp` of two functions runs the second first |
| Reduce.ApplyComp | pkg/corelib/hotpath_builtins.go:363-380 | the loop of `comp` applies the functions from the last to the first |
| Reduce.Mapv | pkg/corelib/hotpath_builtins.go:341-348 | a strict map |
| Refer.Runtime.ReferSelected | pkg/corelib/builtins.go:1473-1498 | by either path the target becomes what referring every chosen mapping makes of it, or of what a rival made of it meanwhile, when no status changed since the snapshot |
| Refer.Runtime.ReferBulk | pkg/corelib/builtins.go:1510-1529 | true gives the loop's table; false installs nothing: the target keeps its table, or the one a rival gave it before the compare-and-set |
| Refer.Runtime.PublicReferMap | pkg/corelib/builtins.go:1546-1568 | the snapshot of the current table is the eligible mappings when no status changed since |
| Refer.BulkIffServes | pkg/corelib/builtins.go:1510-1529 | a successful bulk refer equals the loop exactly when the snapshot agrees with what is eligible now where it matters |
| Refer.LoopResultUnique | pkg/corelib/builtins.go:1473-1498 | what the per-symbol loop makes of a target is one table, so two paths that give it agree |
| Refer.LoopResultIff | pkg/corelib/builtins.go:1473-1498 | name by name: a public var of the source's own that passes `:only` and `:exclude` takes the name unless the target has its own var or the very same one there, and every other name stays as it was |
| Refer.StaleSnapshot | pkg/corelib/builtins.go:1538-1552 | a snapshot kept across a status change that does not serve |
| Refer.Runtime.SetPublic | pkg/corelib/builtins.go:1538-1552 | changing a status touches no mapping table and no snapshot |
| Refer.Overlay | pkg/corelib/builtins.go:1516-1527 | the overlay loop succeeds exactly without conflict and gives the snapshot under the target's entries |
| Seque.SequeDelivers | pkg/corelib/parallel_builtins.go:45-88 | in every run: a prefix of the source in order, at most n + 1 ahead, a failure once and after every earlier element, the end only at the end |
| Seque.NoDeadlock | pkg/corelib/parallel_builtins.go:64-86 | while the consumer pulls, something can move |
| Seque.ProducerIsBounded | pkg/corelib/parallel_builtins.go:65-75 | alone the producer takes boundedly many steps |
| Seque.StepInv | pkg/corelib/parallel_builtins.go:64-86 | every step keeps channel contents, order and the one error where they belong |
| Exec.ExecReturns | pkg/bri/io_proc.go:135-186 | in every interleaving an in-time return has every byte written and no writer left, a timed-out one a prefix, with the right status |
| Exec.TimedOutNeedsNobody | pkg/bri/io_proc.go:141-156 | after a timeout, once the child exited, at most three steps of exec's own finish the call |
| Exec.InTimeWaitsForHolders | pkg/bri/io_proc.go:139-140 | the in-time branch does not return while anything holds a pipe |
| Exec.StepInv | pkg/bri/io_proc.go:125-205 | every step keeps buffer and in-hand bytes equal to what was read |
| Spawn.ObserversSeeTheTruth | pkg/bri/proc_spawn.go:59-142 | any status an observer gets is the child's, after its exit; a wait is never answered earlier |
| Spawn.PublishedForGood | pkg/bri/proc_spawn.go:39-55 | once published, the result and the closed channel never change |
| Spawn.NeverAliveAgain | pkg/bri/proc_spawn.go:59-66 | once one observer has seen it gone, no later one sees it alive |
| Spawn.StillRunningIff | pkg/bri/proc_spawn.go:108-137 | in every run an observer is answered "still running" exactly when it looked at the channel before the reaper published the result |
| Spawn.AskingNow | pkg/bri/proc_spawn.go:108-137 | whatever came before, asking now is answered so exactly when the result is not published, whether or not the child has exited |
| Metrics.RenderedBelowInf | pkg/bri/observability.go:82-117 | under any interleaving every rendered bucket is at most the rendered `+Inf` bucket |
| Metrics.QuietIsExact | pkg/bri/observability.go:59-73 | at quiescence buckets count exactly the requests at or below 1, 5, 10, ... 10000 ms, ascend, class c counts the statuses from 100c to 100c + 99, class 0 the rest, and the classes add up to the count |
| Metrics.RenderedAscends | pkg/bri/observability.go:101-109 | a rendered bucket exceeds a later one by at most the observations that were between the two when the later one was read |
| Metrics.RenderedMayDescend | pkg/bri/observability.go:67-71 | a run in which rendered bucket 0 is 1 and rendered bucket 1 is 0 |
| Metrics.QuietRendering | pkg/bri/observability.go:101-109 | a bucket read with no observation in progress is exact in the rendering |
| Metrics.StepInv | pkg/bri/observability.go:59-117 | every counter is the number of observers past its addition |
| RouteCounters.RouteMetric.Observe | pkg/bri/observability.go:59-73 | one observation in place is the fifteen additions of the step model |
| Registry.OneEntryPerRoute | pkg/bri/observability.go:41-55 | two calls get the same entry exactly when they asked for the same route |

## Left out

* Time zones other than a fixed offset, locale, Go's `time` internals: the calendar is the proleptic Gregorian one.
* The `int64` range of the millisecond count cron returns, and 64-bit wrap of metrics counters and of gensym counters.
* Match: maps with keys other than scalars, set literals as patterns, string escapes in the printed order of keys, errors
  of the pattern reader; guards and match expressions are pure and total; one compiler at a time uses the gensym counter.
- MatchTheorems.MatchIsFirstClause: assumes no name is bound twice in one clause (`MatchLimits.TwiceBoundDependsOnOthers`
  shows why), and that a later clause mentions a name an earlier clause binds only if it binds it itself
  (`MatchLimits.CaptureChangesResult` shows why; `MatchTheorems.MatchRunsFirst` asks it of guards only).
- MatchTheorems.MatchIsSound: the same two assumptions; `MatchTheorems.MatchIsSafe` is without them.
- MatchSurfaceTheorems.MatchIsFirstReading: the same two of the readings; constructors disjoint in every column; patterns
  that parse exactly (`MatchParse.SeqExactIff`).
- MatchLimits.DisjointIffFaithful: one column and two clauses; that disjointness suffices is `MatchIsFirstClause` for all.
- MatchParse.RowsOfClauseExact: shape only; guards and names are in `MatchSurfaceTheorems.MatchIsFirstReading`.
- MatchParse.ParseIsExact: shape only, likewise.
* Analyzer: source positions and error texts, metadata and docstrings of `def`, reflection on hosts; host calls are one
  node with expression children, maps where a struct constructor wants its fields; `fuel` bounds the depth of analysis
  because macros may expand for ever.
* Date patterns: chars stand for bytes; error texts.  An offset that is not whole minutes loses its seconds when printed,
  so the round trip asks for whole minutes where an offset is named.
- DateLimits.DelimitedIffRoundTrips: of UTC instants. At other offsets the delimiting rule is shown to suffice
  (`DateLetters.PatternRoundTrip`), and what an hour-only offset needs is `DateLimits.HourOffsetIff`.
* Sequences: elements a function is applied to are pure in map, filter and keep; how much of a source is realized is shown
  only through what an unfinished source already gives; the several-collection arities of map and mapv.
* Multimethods: the read-write lock, printing, and the dispatch function itself.
* Refer: mapping keys are unqualified symbols; only the compare-and-set race is concurrent; warnings.
* Exec: standard input, environment, file descriptors, pipe capacity, real time.  Spawn: the streams and `kill`.
* Metrics: the sum, text formatting, several routes in one rendering, and reset.
* The rest of the repository: reader, evaluator, emitter, core.async, HTTP, sockets, files, cryptography, CLI.
