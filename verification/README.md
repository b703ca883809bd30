# Verified models of kuso's release guards and importers

This project models, in Dafny 4.11, the parts of kuso that decide something a user cannot easily
check afterwards, and proves what those decisions guarantee:

- **The CRD guard** (`hack/crd-guard.py`): `CrdSchema`, `Regex`, `CrdGuard`, `CrdSoundness`, `CrdGaps`,
  `CrdCompose`, `CrdCompare`, `CrdReport`. `CrdSchema.Valid` and `CrdSchema.Prune` give schemas a meaning of their own,
  independent of the guard: which values a node admits and what a write leaves of them. The guard is an
  imperative walk that appends to one shared problem list. Main theorem, `CrdSoundness.GuardSound`: if the walk
  reports nothing, every value valid and already pruned under the old tree is valid under the new tree and
  loses nothing. `CrdReport.ReportExact` says what every problem of a report means, and that none is reported
  without its reason.
- **The release impact report** (`hack/release-impact.py`): `Rbac` proves that the textual test `held` decides
  coverage over the infinite set of concrete requests, and `Mask` proves when two masked renders are equal.
- **Compose interpolation** (`compose/interp.go`): `Interp` is the scanner; `InterpRead` states the
  documented forms as they are written; `InterpGrammar` proves that on the
  text of every well-formed template, nested to any depth, it computes the template's meaning.
- **Slugs** (`compose/mapping.go`, `coolify/mapping.go`, `cli/cmd/kusoCli/migrate.go`): `Slug`, `SlugRead`,
  `SlugAlloc`, `Naming`, with `Sorting` for the sort the naming relies on.
- **The compose conversion** (`compose/convert.go`, `envref.go`, `classify.go`, `report.go`) and the gate before
  it is applied (`cli/cmd/kusoCli/import.go`): `Classify`, `ImageRead`, `EnvRef`, `UrlRead`, `EnvRead`,
  `Convert`, `ConvertProps`, `ConvertRead`, `Gate`.
- **Two small refinements**: `SelectEnv` (`coolify/types.go`) and `ShellQuote` (`cli/cmd/kusoCli/incident.go`).

`Wrappers`, `Lists` and `Strings` hold shared vocabulary.

Loops of the source are methods here, tied by their `ensures` to functions of their inputs; the promises of the
source are lemmas about those functions. Python dicts and Go maps that a method iterates over are visited in an
arbitrary order, so a proof about such a method holds for every order.

`dafny verify dfyconfig.toml` checks everything.

## What the proofs found

- The CRD guard misses some breaking changes. `CrdSoundness.NodeComparable` names, clause by clause, the changes
  that have to be absent for its promise to hold on the modelled keywords, and `CrdGaps.EveryClauseNeeded` shows that
  no clause can be dropped: for each there are two trees that fail that clause and no other, a silent walk between
  them, and a stored value that does not survive. The changes are: an empty old node that gains a type;
  `x-kubernetes-int-or-string`, `items` or a named property added where values of any shape were stored; an
  `additionalProperties` that is no mapping, or a literal `true`, dropped; a literal `additionalProperties: true`
  added where fields were kept whole or by a value schema; `x-kubernetes-list-map-keys` dropped; an enum or a
  combinator that confuses `true` with `1` (Python's `==`); a CEL rule `c ? t : e || (old)`; a CEL rule whose
  ` || (old)` stands in a comment or a string, such as `false // || (old)`; `multipleOf` or another constraining
  keyword that the guard does not read. One more clause concerns malformed patterns only, those with a group or class
  left open.
- The docstring of `_cel_weakened` says that a rule ending in ` || (<old>)` admits a superset
  (hack/crd-guard.py:55). `CrdGaps.CelWideningExact` shows that this is so exactly when no conditional stands in
  front of the disjunction and CEL reads it as one. `Regex.PatternWideningExact` does the same for patterns: what
  passes the test is a widening exactly if the old pattern's groups and classes are closed.
- The reports that can announce a loss of stored data are the removal of a field, of items, of an
  additionalProperties schema or of preserve-unknown-fields, additionalProperties disallowed, and also
  `additionalProperties schema added` (`CrdSoundness.LossReported`): a value schema on a preserve-unknown node
  prunes inside the fields it now governs, and nothing else is reported (`CrdGaps.AdditionalAddedLoses`).
- Two silent comparisons compose into a silent one exactly when no CEL widening was stacked on another
  (`CrdCompose.WalkTransitive`). CEL-free trees are the case where that condition holds trivially.
- `${NAME:-$${}` is read as unterminated, because brace matching does not know `$$`
  (`InterpGrammar.EscapedBraceMisread`). A brace expression reads back exactly when its argument's text balances
  (`InterpGrammar.BraceCloses`); arguments without a bare `}` and without `$${` always do.
- `ServiceSlugFromApp` says it strips any ":branch" suffix (coolify/mapping.go:101-102). A branch with a slash is taken
  for the repository instead (`Naming.BranchSlashMisread`); the name is read right exactly if the branch has no slash,
  or ends in the same name (`Naming.RepoNameExact`). `acme/api:feature/login` is read as `login`.
- `urlHosts` cuts a bracketed IPv6 host that no port follows (`UrlRead.BareAddressCut`).
- `itoa` returns "-" for the least 64-bit integer, which has no negation (`SlugAlloc.Itoa`). It is only called with
  numbers from 2 on.

## Model

| member | source | states |
|---|---|---|
| `Regex.EscapeParity` | hack/crd-guard.py:42-51 | a left-to-right escape scan ends right after a live backslash exactly when the trailing run of backslashes is odd |
| `Regex.WidenedExact` | hack/crd-guard.py:45-51 | with groups and classes closed, the parity test holds exactly when a `\|` put next is a top-level alternation |
| `Regex.WidenedKeepsAlternatives` | hack/crd-guard.py:42-51 | the new pattern's top-level alternatives are the old ones, in order, followed by those of the appended text |
| `Regex.WidenedAcceptsMore` | hack/crd-guard.py:31-33 | every text the old pattern accepts, the widened one accepts |
| `Regex.AlternativesRun` | hack/crd-guard.py:42-51 | every top-level alternative but the last is closed, and the last is as open as the whole pattern |
| `Regex.PatternWideningExact` | hack/crd-guard.py:42-51 | whatever passes the widening test accepts all the old pattern accepts, for every reading of single alternatives, exactly if the old pattern's groups and classes are closed or its trailing backslashes let nothing pass |
| `CrdGuard.Bounds` | hack/crd-guard.py:20-39 | the shared list grows by exactly the bound, exclusive-bound, pattern, format and nullable problems, in source order |
| `CrdGuard.Cel` | hack/crd-guard.py:61-65 | one problem for each new rule that is neither an old rule nor ends in a disjunction with one |
| `CrdGuard.Combinators` | hack/crd-guard.py:89-92 | one problem for each combinator added or changed |
| `CrdGuard.WalkFields` | hack/crd-guard.py:116-122 | what the named properties contribute, for any iteration order |
| `CrdGuard.WalkItems` | hack/crd-guard.py:123-128 | what the items schema contributes |
| `CrdGuard.WalkAdditional` | hack/crd-guard.py:129-142 | what additionalProperties contributes, in all its five outcomes |
| `CrdGuard.Walk` | hack/crd-guard.py:68-142 | the list keeps what it had and gains exactly `WalkProblems(o, n, path)` |
| `CrdGuard.NodeAppends` | hack/crd-guard.py:75-115 | what a node reports does not depend on what was reported before |
| `CrdGuard.NodeSilent` | hack/crd-guard.py:75-115 | a node reports nothing exactly when its keywords, bounds and rules are compatible |
| `CrdGuard.WalkSilent` | hack/crd-guard.py:68-142 | the walk reports nothing exactly when the trees are `Compatible` at every depth |
| `CrdSoundness.TypeSound` | hack/crd-guard.py:75-81 | with silent type keywords, every value of the old type has the new type, null included |
| `CrdSoundness.EnumSound` | hack/crd-guard.py:93-100 | every stored value the old enum lists, the new one lists |
| `CrdSoundness.CelSound` | hack/crd-guard.py:54-65 | an accepted rule that is an old rule, or that CEL reads as a disjunction, admits every value all old rules admit |
| `CrdSoundness.CombinatorsSound` | hack/crd-guard.py:89-92 | with combinators that Python tells apart, every combinator of the new node admits what the old node's admit |
| `CrdSoundness.BoundsSound` | hack/crd-guard.py:20-29 | every value within the old bounds, exclusive ones too, is within the new ones |
| `CrdSoundness.PatternSound` | hack/crd-guard.py:30-37 | every text the old pattern accepts, the new one accepts |
| `CrdSoundness.NodeSound` | hack/crd-guard.py:75-115 | every keyword the guard reads at a node still admits the value |
| `CrdSoundness.LossReported` | hack/crd-guard.py:109-142 | any change, at any depth, that can lose stored data is in the report as a field, items, additionalProperties or preserve-unknown problem |
| `CrdSoundness.NoSilentLoss` | hack/crd-guard.py:6-9 | without such a change, pruning a stored value under the new tree returns it unchanged, whatever else is reported and whatever changes that do not bear on pruning go unreported |
| `CrdSoundness.SilentGuardIsSound` | hack/crd-guard.py:6-9 | for compatible trees every stored value stays valid, at any nesting of properties, items and additionalProperties |
| `CrdSoundness.GuardSound` | hack/crd-guard.py:68-142 | an empty report means every value valid and pruned under the old tree is valid under the new one and loses nothing |
| `CrdGaps.IntOrStringAddedSilent` | hack/crd-guard.py:80-81 | on every node, adding x-kubernetes-int-or-string goes unreported |
| `CrdGaps.ItemsAddedSilent` | hack/crd-guard.py:123-128 | on every node without items, adding an items schema goes unreported |
| `CrdGaps.PropertyAddedSilent` | hack/crd-guard.py:116-122 | on every node, adding a named property goes unreported |
| `CrdGaps.LiteralTrueDroppedSilent` | hack/crd-guard.py:129-142 | on every node, dropping additionalProperties: true goes unreported |
| `CrdGaps.LiteralTrueAddedSilent` | hack/crd-guard.py:129-142 | on every node, changing additionalProperties to true goes unreported |
| `CrdGaps.CombinatorConfusedSilent` | hack/crd-guard.py:89-92 | on every node, replacing a combinator by one that Python's == takes for it goes unreported |
| `CrdGaps.UnreadChangedSilent` | hack/crd-guard.py:68-142 | on every node, any change of the keywords the guard does not read goes unreported |
| `CrdGaps.MapKeysDroppedSilent` | hack/crd-guard.py:87-88 | on every node, dropping the list-map-keys goes unreported |
| `CrdGaps.WidenedPatternSilent` | hack/crd-guard.py:33-37 | on every node, a pattern that passes the widening test goes unreported |
| `CrdGaps.AcceptedRuleSilent` | hack/crd-guard.py:61-65 | on every node, a rule that passes the weakening test goes unreported |
| `CrdGaps.NoMappingMissed` | hack/crd-guard.py:70-71 | a stored value is lost when an old node that is no mapping gains a type |
| `CrdGaps.EmptyOldNodeMissed` | hack/crd-guard.py:78-79 | a stored value is lost when an empty node gains a type; no other clause of the condition fails |
| `CrdGaps.IntOrStringAddedMissed` | hack/crd-guard.py:80-81 | a stored value is lost when int-or-string appears on an open node; only that clause fails |
| `CrdGaps.ItemsAddedMissed` | hack/crd-guard.py:123-128 | a stored value is lost when items appears on an open node; only that clause fails |
| `CrdGaps.PropertyAddedMissed` | hack/crd-guard.py:116-122 | a stored value is lost when a property is named on an open node; only that clause fails |
| `CrdGaps.ValueSchemaDroppedMissed` | hack/crd-guard.py:129-142 | a stored value is pruned when a value schema that is no mapping goes; only that clause fails |
| `CrdGaps.LiteralTrueDroppedMissed` | hack/crd-guard.py:129-142 | a stored value is pruned when additionalProperties: true goes; only that clause fails |
| `CrdGaps.LiteralTrueAddedMissed` | hack/crd-guard.py:129-142 | stored nested objects are emptied when additionalProperties: true is added to an open node; only that clause fails |
| `CrdGaps.MapKeysDroppedMissed` | hack/crd-guard.py:87-88 | a stored map list turns invalid when its keys go; only that clause fails |
| `CrdGaps.EnumBooleanMissed` | hack/crd-guard.py:93-98 | a stored `true` is lost when the enum lists 1 instead; only that clause fails |
| `CrdGaps.CombinatorBooleanMissed` | hack/crd-guard.py:89-92 | a stored 1 is lost between `not: {enum: [true]}` and `not: {enum: [1]}`; only that clause fails |
| `CrdGaps.UnreadAddedMissed` | hack/crd-guard.py:68-142 | a stored number is lost when multipleOf appears; only that clause fails |
| `CrdGaps.OpenClassPatternMissed` | hack/crd-guard.py:42-51 | after an unclosed class the widening test accepts a pattern that rejects a stored text; only that clause fails |
| `CrdGaps.ConditionalRuleMissed` | hack/crd-guard.py:54-58 | a stored value is lost to a rule whose disjunction sits under a conditional; only that clause fails |
| `CrdGaps.MaskedRuleMissed` | hack/crd-guard.py:54-58 | a stored value is lost to a rule whose disjunction is commented out; only that clause fails |
| `CrdGaps.EveryClauseNeeded` | hack/crd-guard.py:6-9 | for every clause of the condition of GuardSound there are trees that fail no other one, a silent walk between them, and a stored value that does not survive |
| `CrdGaps.AdditionalAddedLoses` | hack/crd-guard.py:139-142 | a value schema added to an open node prunes stored data that stays valid, and "schema added" is the whole report |
| `CrdGaps.CelWideningExact` | hack/crd-guard.py:54-58 | the suffix test proves a widening for all rules of a given shape exactly when no conditional stands in front of the disjunction and no comment or string hides it |
| `CrdCompose.WalkReflexive` | hack/crd-guard.py:68-142 | comparing any tree with itself reports nothing |
| `CrdCompose.NodeTransitive` | hack/crd-guard.py:20-113 | bounds, enums, required, defaults, patterns and types compose over two silent steps |
| `CrdCompose.WalkTransitive` | hack/crd-guard.py:68-142 | two silent steps make a silent one exactly when no rule widens only what the middle release had widened |
| `CrdCompose.StackedWideningReported` | hack/crd-guard.py:54-65 | two widenings in a row, each silent, are reported when compared at once |
| `CrdCompose.EmptyMiddleHidesChange` | hack/crd-guard.py:76-79 | an empty node in the middle release hides a type change from both steps |
| `CrdCompose.LiteralTrueMiddleHidesChange` | hack/crd-guard.py:129-142 | so does additionalProperties: true for the removal of a value schema |
| `CrdCompare.VersionsExact` | hack/crd-guard.py:145-146 | exactly the names of the list are there, each with the last version of that name |
| `CrdCompare.CompareIdentity` | hack/crd-guard.py:152-160 | one problem for each identity field that was set and differs |
| `CrdCompare.CompareVersions` | hack/crd-guard.py:162-171 | removed versions, served flips and every walk, for any iteration order |
| `CrdCompare.Compare` | hack/crd-guard.py:149-172 | a fresh list that holds exactly the identity and version problems |
| `CrdCompare.CleanKeepsIdentity` | hack/crd-guard.py:152-160 | a clean comparison keeps group, scope, plural and kind |
| `CrdCompare.CleanCompareIsSound` | hack/crd-guard.py:149-172 | a clean comparison keeps every version, keeps served ones served, and leaves each comparable stored resource valid and whole |
| `CrdReport.UpperExact` | hack/crd-guard.py:21-23 | an upper bound counts as tightened exactly if some number keeps within the old bound, or no old bound is set, and is beyond the new one |
| `CrdReport.LowerExact` | hack/crd-guard.py:24-26 | the mirror for lower bounds |
| `CrdReport.PyEqExact` | hack/crd-guard.py:89-108 | values count as equal exactly if they are alike in shape and their leaves are alike, or are a boolean and the number it stands for |
| `CrdReport.NodeExact` | hack/crd-guard.py:75-115 | for every kind of problem, a node is reported with it exactly if the two nodes differ in the way that kind names, and only under the node's own path |
| `CrdReport.ReportExact` | hack/crd-guard.py:68-142 | the walk reports a problem exactly if two nodes that stand at one place of both trees tell it, under the path of that place: no false report and none missing |
| `CrdReport.CompareExact` | hack/crd-guard.py:145-172 | a comparison of documents reports a problem exactly if an identity field moved, a version is gone or no longer served, or the schemas of a version tell it |
| `Rbac.Expand` | hack/release-impact.py:87-96 | the nested loops collect exactly the permissions the rules stand for, absent groups and names defaulted |
| `Rbac.AddRule` | hack/release-impact.py:91-95 | one rule adds the product of its four lists |
| `Rbac.AddVerbs` | hack/release-impact.py:93-95 | its two innermost loops add the product of verbs and names |
| `Rbac.RuleExpandedExact` | hack/release-impact.py:91-95 | a rule read directly, about the core group where it names no API group, matches a request exactly when one of its permissions does |
| `Rbac.HeldExact` | hack/release-impact.py:99-103 | `held` is true exactly when every concrete request of the need is granted by some permission, wildcards and names included |
| `Rbac.ExpandedExact` | hack/release-impact.py:87-96 | a request is permitted by the rules exactly when some expanded permission matches it |
| `Rbac.MissingExact` | hack/release-impact.py:112-123 | nothing is missing exactly when the new role permits no request the server lacks, for Roles and ClusterRoles |
| `Rbac.ShownExact` | hack/release-impact.py:123-126 | the report shows a group, resource and verb exactly if a permission of the new role with just these lets some concrete request through that the server does not hold |
| `Mask.FlattenExact` | hack/release-impact.py:144-152 | flattening yields exactly the leaves, each under the one path that leads to it |
| `Mask.UnstableExact` | hack/release-impact.py:155-157 | a path is unstable exactly when the two trees read differently at it |
| `Mask.AgreementHides` | hack/release-impact.py:160-167 | where masked trees agree, every differing path has a masked prefix |
| `Mask.AgreementShapes` | hack/release-impact.py:160-167 | where masked trees agree, the originals branch alike outside the masked paths |
| `Mask.HidingAgrees` | hack/release-impact.py:160-167 | trees that branch alike and differ only below masked paths become equal |
| `Mask.MaskExact` | hack/release-impact.py:155-167 | masked trees are equal exactly when shapes agree outside the mask and each unstable path has a masked prefix |
| `Mask.UnstableMaskSuffices` | hack/release-impact.py:155-167 | masking two trees of one shape with their own unstable paths makes them equal |
| `Mask.UnchangedExact` | hack/release-impact.py:207-212 | a template counts as unchanged exactly when old and new differ only at or below paths that vary between two renders of one chart |
| `Interp.MatchBrace` | compose/interp.go:132-147 | the loop finds the close that `CloseFrom` describes |
| `Interp.MatchBraceLeast` | compose/interp.go:130-147 | the result is the least index after which the nesting depth is zero; -1 means the depth never gets there |
| `Interp.NameEndUnique` | compose/interp.go:152-155 | the name is the longest run of name characters |
| `Interp.FirstOpListed` | compose/interp.go:157-162 | the operator is the first of the list that the text begins with, or none |
| `Interp.SplitExpr` | compose/interp.go:151-163 | the loop splits a body into name, operator and argument |
| `Interp.SplitReassembles` | compose/interp.go:149-163 | name, operator and argument put together are the body, with the name maximal |
| `Interp.Turn` | compose/interp.go:83-126 | one turn of the scan writes, reports and advances as the text at that index demands, in each of its seven cases |
| `Interp.ResolveBrace` | compose/interp.go:101-112 | a closed brace gives its interpolated default, nothing, or itself with its name reported |
| `Interp.Interpolate` | compose/interp.go:77-128 | the scan equals `Interpolated`, terminates, and recurses only on strictly shorter texts; a text without `$` is its own result |
| `InterpGrammar.ArgumentCloses` | compose/interp.go:132-147 | the `}` behind an argument is the one matching finds exactly when the argument's text balances, wherever it stands |
| `InterpGrammar.BraceCloses` | compose/interp.go:93-100 | a printed brace expression is closed at its own `}` exactly when its argument's text balances |
| `InterpGrammar.PassText` | compose/interp.go:132-147 | brace matching passes over an argument without bare `}` and without `$${`, at any level, and leaves the level as it was |
| `InterpGrammar.UnbracedWellFormed` | compose/interp.go:132-147 | that condition on the letters of the arguments, at every nesting, is enough for a template to be well-formed |
| `InterpGrammar.SplitBody` | compose/interp.go:151-163 | a body printed from name, operator and argument splits into just those |
| `InterpGrammar.BracePiece` | compose/interp.go:93-113 | a printed brace expression with a balanced argument reads back whole and stands for its meaning |
| `InterpGrammar.InterpolateIsEval` | compose/interp.go:68-128 | for every template whose arguments' texts balance, nested to any depth, interpolating its text gives its evaluation with all variables unset: output and ordered unresolved names |
| `InterpGrammar.EscapeUndone` | compose/interp.go:73-92 | doubling every `$` is undone, with nothing reported, for every text |
| `InterpGrammar.EscapedBraceMisread` | compose/interp.go:132-147 | the template `${N:-$${}`, whose argument does not balance, is kept as unterminated |
| `InterpGrammar.EscapedPairRead` | compose/interp.go:132-147 | `${N:-$${}}`, whose argument does, is its default `${}` |
| `InterpRead.NameCodes` | compose/interp.go:165-169 | names are made of ASCII letters, digits and the underscore, and do not begin with a digit |
| `InterpRead.VariableRead` | compose/interp.go:73-76 | for every name and every word without dollar and brace: `${N:-word}` and `${N-word}` give the word, `${N:+word}` and `${N+word}` nothing, and `${N:?word}`, `${N?word}` and `${N}` stay and report N |
| `InterpRead.BareRead` | compose/interp.go:114-121 | `$NAME` stays and reports NAME |
| `Slug.CollapseLoop` | compose/mapping.go:37-50 | the builder loop writes the collapsed text |
| `Slug.Slugify` | compose/mapping.go:32-59 | the compose slug of every text |
| `Slug.SlugifyName` | coolify/mapping.go:41-68 | the Coolify slug of every text |
| `Slug.FoldingDecides` | compose/mapping.go:33-50 | the collapsed text depends on the case folding only in which characters become which letters or digits |
| `Slug.CollapseIsJoin` | compose/mapping.go:25-50 | the loop writes the maximal alphanumeric words joined by single dashes, plus one dash if it ends outside a word |
| `Slug.SlugIsJoin` | compose/mapping.go:32-59 | both functions, despite their different order of checks, give the words joined by dashes and clamped, or the fallback |
| `Slug.SlugNormal` | compose/mapping.go:25-31 | 1 to 50 characters of [a-z0-9-], no leading, trailing or doubled dash |
| `Slug.SlugFixed` | compose/mapping.go:32-59 | the slugs are exactly the normal names: a text is its own slug exactly when it is normal |
| `SlugRead.SlugAlphabet` | compose/mapping.go:25-31 | by their codes, the characters of a slug are digits, lower-case letters and dashes |
| `SlugRead.SlugOfWord` | compose/mapping.go:32-59 | a text of ASCII letters and digits is its own slug in lower case, cut to 50 characters |
| `SlugRead.SlugOfTwo` | compose/mapping.go:37-50 | whatever stands between two such words, of any length, becomes one dash |
| `SlugRead.SlugOfNone` | compose/mapping.go:33-56 | a text without letters and digits is named x-unnamed |
| `SlugRead.SlugCaseless` | compose/mapping.go:33 | texts that differ in letter case only have one slug |
| `SlugRead.SlugUnspaced` | compose/mapping.go:33 | white space around a text makes no difference to its slug |
| `SlugAlloc.DecimalInjective` | compose/mapping.go:90-110 | distinct numbers have distinct decimal texts |
| `SlugAlloc.DecimalRead` | compose/mapping.go:90-110 | the text of a number is its decimal numeral: digits that read back as the number, with no leading zero |
| `SlugAlloc.WriteDigits` | compose/mapping.go:98-104 | the digit loop fills the 20-byte buffer from its end with the number's digits and leaves room for a sign |
| `SlugAlloc.Itoa` | compose/mapping.go:90-110 | for every 64-bit int the 20-byte buffer suffices; the text is the decimal form, except that the least int gives "-" |
| `SlugAlloc.CandidateInjective` | compose/mapping.go:82-85 | no name is tried twice |
| `SlugAlloc.CandidateRead` | compose/mapping.go:79-85 | the names tried are the base, base-2, base-3 and so on, by their numerals |
| `SlugAlloc.FirstChoices` | compose/mapping.go:81-88 | a free base is handed out as it is, and a taken one with "-2" behind it if that is free |
| `SlugAlloc.TakenBound` | compose/mapping.go:83-85 | pigeonhole: at most as many candidates as there are taken names can be taken |
| `SlugAlloc.Taken.UniqueSlug` | compose/mapping.go:81-88 | the search terminates within that bound plus one, returns the first free candidate and marks it taken |
| `SlugAlloc.FirstFree` | compose/mapping.go:79-88 | the slug handed out is the first free candidate, and at most one candidate more than there are taken names is tried |
| `SlugAlloc.DedupeSlugs` | compose/mapping.go:67-77 | the compose names' slugs, a repeated name keeping its first |
| `SlugAlloc.AssignKusoSlugs` | coolify/mapping.go:74-84 | the same for Coolify project names |
| `SlugAlloc.AssignInjective` | compose/mapping.go:61-77 | every name gets a slug and distinct names get distinct ones |
| `SlugAlloc.AssignStable` | coolify/mapping.go:70-84 | names appended later change no earlier assignment |
| `SlugAlloc.AssignPlain` | compose/mapping.go:61-66 | a name keeps its plain slug exactly when that was free at its turn |
| `SlugAlloc.AssignEachInjective` | cli/cmd/kusoCli/migrate.go:415-419 | without the lookup, too, every key gets a slug and distinct keys get distinct ones, even if keys repeat |
| `SlugAlloc.AssignEachDistinct` | cli/cmd/kusoCli/migrate.go:415-419 | over distinct keys, assigning without the lookup gives the same result |
| `SlugAlloc.ImportersAgree` | compose/mapping.go:61-66 | both importers hand out the same slugs for the same names |
| `Sorting.SortOrderIndependent` | cli/cmd/kusoCli/migrate.go:414 | sorting by distinct keys gives one list for every permutation |
| `Strings.LessExact` | compose/convert.go:107 | the order sorted by is the ascending one of dictionaries: the first character that differs decides by its code, and a prefix comes first |
| `Naming.RepoNameRead` | coolify/mapping.go:98-119 | owner/base, with ".git" or not, with ":branch" or not, names base, for every branch without a slash |
| `Naming.RepoNameExact` | coolify/mapping.go:98-119 | with any branch, the name is read right exactly if the branch holds no slash or itself reads as that name |
| `Naming.BranchSlashMisread` | coolify/mapping.go:113-115 | if the branch holds a slash, what follows its last one is taken for the repository |
| `Naming.FeatureBranchMisread` | coolify/mapping.go:111-119 | `acme/api:feature/login` is read as `login` |
| `Naming.ServiceSlugFromApp` | coolify/mapping.go:98-125 | the name is the repository's slug where the repository yields one, else the application's, and always a normal slug |
| `Naming.AssignServiceSlugs` | cli/cmd/kusoCli/migrate.go:407-421 | the names handed out in UUID order over one shared taken set |
| `Naming.NamesDistinct` | cli/cmd/kusoCli/migrate.go:402-406 | every application gets a name and no two share one, even if they share a UUID |
| `Naming.NamingOrderIndependent` | cli/cmd/kusoCli/migrate.go:405-421 | any permutation of the inventory gives every application the same name |
| `Naming.NamedByUuid` | cli/cmd/kusoCli/migrate.go:402-421 | an application gets the first free candidate of its slug, counted after the names of exactly the applications with smaller UUIDs |
| `Classify.SplitTagExact` | compose/classify.go:58-80 | repository and tag make up the reference again, and a `:` separates a tag exactly when no `/` follows it |
| `ImageRead.BaseRead` | compose/classify.go:95-112 | registry host and "library/" are stripped from a repository, and nothing else |
| `ImageRead.PartsRead` | compose/classify.go:58-80 | every reference of repository, optional tag and optional digest, with white space around it or not, gives its repository in lower case and its tag back, ports in the registry included |
| `ImageRead.MajorVersionRead` | compose/classify.go:133-149 | the version is the tag's leading number, whatever follows it |
| `ImageRead.ClassifyRead` | compose/classify.go:114-131 | which addon an image becomes depends on the lower-cased repository's base name alone, and its version on the tag: registry, library prefix and digest make no difference |
| `ImageRead.NamesExact` | compose/classify.go:58-80 | every text reads as a reference, and the repository in lower case and the tag it reads as are the parts the source gives |
| `ImageRead.NameExact` | compose/classify.go:14-34 | a base name becomes an addon of a kind and version exactly if that kind is published under it, by name, and the tag gives that version |
| `ImageRead.ImageExact` | compose/classify.go:114-149 | the same for a whole reference, from any registry, with or without digest: Redpanda keeps the whole tag, the others the number it begins with, "latest" gives none |
| `EnvRef.KeyTableFacts` | compose/envref.go:33-49 | every such kind has a URL and a host key, and no key serves both as a URL and as another role |
| `UrlRead.HostRead` | compose/envref.go:163-168 | a host is read back exactly if a port follows it or it holds no colon |
| `UrlRead.BareAddressCut` | compose/envref.go:164-166 | `[::1]` without a port is read as `[:` |
| `UrlRead.SplitJoined` | compose/envref.go:163 | a comma-joined list of hosts splits into just those |
| `UrlRead.UrlHostsRead` | compose/envref.go:148-170 | every value of the shape scheme://[userinfo@]host[:port][,host...] with any path, query or fragment gives its hosts, in order, exactly if each is followed by a port or holds no colon |
| `EnvRef.ChooseIsFirst` | compose/envref.go:217-276 | the outcome is that of the first addon whose shape matches, and no match if there is none |
| `EnvRef.ChoiceIsFirst` | compose/envref.go:217-276 | the same for a variable's name and value over any addon list |
| `EnvRef.SomeoneDecides` | compose/envref.go:218-222 | for every value and addon list, the addon that decides exists or the list has none |
| `EnvRef.ChosenKeyInjected` | compose/envref.go:229-231 | a key offered for an addon is non-empty and one its kind injects |
| `EnvRef.ReferenceResolves` | compose/envref.go:217-276 | every reference produced names an addon of the list by a key that addon injects |
| `EnvRef.RoleRespected` | compose/envref.go:235-245 | under a decisive name the answer is the role's key, never a URL key, exactly when value and kind allow it; otherwise the flagged literal |
| `EnvRef.NamedRoleRespected` | compose/envref.go:113-276 | the same for chooseAddonEnv as a whole, at the first addon the value points at |
| `EnvRead.RoleRead` | compose/envref.go:97-124 | in any letter case, the word behind a name's last underscore says its role, by the words listed, and a name whose last word is none of them has none |
| `EnvRead.PlainRoleRead` | compose/envref.go:107-124 | a name without underscore has a role exactly if it is one of libpq's five |
| `EnvRead.KeyTexts` | compose/envref.go:33-49 | which text each kind's key for each role is |
| `EnvRead.AliasTexts` | compose/envref.go:33-49 | under which other names each kind's secret carries its URL |
| `EnvRead.ChoiceAnswers` | compose/envref.go:217-276 | at the first addon that matches, for every name and value: a decisive role gets its own key if value and kind allow it; a name that says BROKERS the bootstrap key if they do; otherwise a URL gets the name itself if it is an alias and else the URL key, a bare host the host key with a flag, host:port the bootstrap key; everything else keeps the literal with a flag |
| `EnvRead.UrlReferenced` | compose/envref.go:148-261 | from the texts: a URL under a name that says URL or nothing refers to the first addon among its hosts, by alias or URL key and without a flag, and to none if none is among them |
| `EnvRead.HostReferenced` | compose/envref.go:192-266 | a bare service name under such a name refers to that addon's host key, flagged, never to its URL |
| `EnvRead.HostPortReferenced` | compose/envref.go:172-272 | host:port under such a name or one that says BROKERS refers to Redpanda's bootstrap key; for other kinds the literal stays, flagged |
| `EnvRead.NamedHostReferenced` | compose/envref.go:233-245 | a bare service name under a name that says HOST refers to the host key without a flag |
| `EnvRead.UrlUnderHostKept` | compose/envref.go:211-238 | a URL under a name that says HOST or PORT keeps its text, flagged |
| `EnvRead.PrefixRead` | compose/envref.go:132-146 | which names can mean an addon's credential: none in front, the service's own name at the end, or a word between underscores that is that name or a database word |
| `EnvRead.CredentialReferenced` | compose/envref.go:196-245 | under a name that says user, password or database, the first addon whose credential or service the value is gets it: by the role's key if it is the credential and the name can mean it, and with the literal kept otherwise |
| `EnvRead.DbPasswordMeansAddon` | compose/envref.go:132-134 | DB_PASSWORD means the password of every addon that has the value |
| `EnvRead.AppNameMeansNoAddon` | compose/envref.go:132-134 | APP_NAME means no addon's database name, whatever the value, unless the service is called app |
| `Convert.Report.UnresolvedVar` | compose/report.go:51-53 | one record is appended |
| `Convert.Report.UnresolvedEnvFile` | compose/report.go:55-64 | a path is appended unless it is already recorded |
| `Convert.ResolveText` | compose/interp.go:34-37 | one value is interpolated, and one record is appended exactly if something stayed unresolved |
| `Convert.ResolveList` | compose/interp.go:21-32 | each element of a list is interpolated, and the records of the elements are appended in order |
| `Convert.ResolveValues` | compose/interp.go:43-50 | the same for each present value of a map; absent ones stay absent |
| `Convert.ResolveFixed` | compose/interp.go:34-39 | image, command and entrypoint are interpolated, and their records appended in that order |
| `Convert.ResolveService` | compose/interp.go:13-66 | image, command, entrypoint, build arguments and environment are interpolated and nothing else changes; the records of the first three come in order, then exactly those of the two maps |
| `Convert.AllRecords` | compose/interp.go:13-66 | together these are exactly the service's unresolved values |
| `Convert.DatastoreCreds` | compose/envref.go:87-95 | each role a non-empty init variable declares gets one of the declared values, and no other role does |
| `Convert.ConvertVars` | compose/convert.go:365-397 | the loop over the sorted keys gives each variable its value and appends one record for each absent one, in key order |
| `Convert.ConvertEnv` | compose/convert.go:360-399 | each variable gets its reference, literal or empty text; the absent ones are recorded in key order and the env_file paths where first named |
| `Convert.NoteEnvFiles` | compose/convert.go:406-416 | each path not recorded yet is appended, in order |
| `Convert.ConvertService` | compose/convert.go:230-315 | the service entry for a slug, with the records its environment causes |
| `Convert.ConvertOne` | compose/convert.go:129-137 | one compose service becomes one addon or one service, never both |
| `Convert.ConvertAll` | compose/convert.go:129-137 | the document's lists, the records and the env_file paths, each in name order |
| `Convert.AddonRefs` | compose/convert.go:117-127 | exactly the services classified as addons are registered, with slug, kind and credentials |
| `Convert.SortedAddons` | compose/envref.go:299-307 | the registered addons, each once and no others, in compose-name order |
| `Convert.SortedNames` | compose/convert.go:103-108 | the keys of a map, each once, sorted, in whatever order the map is visited |
| `Convert.OrderedUnique` | compose/convert.go:103-108 | there is only one such list |
| `Convert.MakePlan` | compose/convert.go:117-127 | slugs and addons make a valid plan for the resolved services |
| `Convert.ConvertResolved` | compose/convert.go:117-140 | the document is the one the plan determines, and the report grows by exactly the converted services' records and paths, in name order |
| `Convert.Convert` | compose/convert.go:99-141 | the document is the one a valid plan determines; the report holds exactly the unresolved values, those of resolving before those of converting, the latter and the env_file paths in name order |
| `Convert.ReportedSets` | compose/convert.go:99-141 | as sets, these are the unresolved values and env_file paths of all services |
| `ConvertProps.NamesConserved` | compose/convert.go:129-137 | the names of services and addons together are the slugs handed out, with multiplicity |
| `ConvertProps.AllNamesDistinct` | compose/convert.go:99-141 | as many entries as compose services, and no two entries share a name |
| `ConvertProps.ServiceOrigin` | compose/convert.go:129-137 | a service is in the document exactly when an app among the names makes it |
| `ConvertProps.AddonOrigin` | compose/convert.go:129-137 | an addon is in the document exactly when a classified datastore among the names makes it |
| `ConvertProps.ValuesCarried` | compose/convert.go:252-312 | entrypoint and command become one argument list and build arguments with a value are kept, all interpolated |
| `ConvertProps.ServiceRuns` | compose/convert.go:230-312 | image and runtime, argument list, build arguments and each variable of a converted service, each said of the compose service's own texts: the image its reference names under its tag or "latest", no image and a Dockerfile where it is built or names none |
| `ConvertProps.ResolvedInterpolates` | compose/interp.go:13-66 | resolving interpolates every text of a service in its place and changes nothing else |
| `ConvertProps.AddonsValid` | compose/convert.go:120-127 | registered addons have a classified kind and only user, password and db credentials |
| `ConvertProps.AddonInDoc` | compose/convert.go:120-133 | every addon a value may refer to is in the document under its slug and kind |
| `ConvertProps.EnvValueLegitimate` | compose/convert.go:372-396 | every environment value is its own text or a reference to an addon of the document by a non-empty key its kind injects |
| `ConvertProps.ConversionIntegrity` | compose/convert.go:94-141 | each compose service, its texts interpolated, is in the document under its slug: as an addon of the image's kind and version if it has no build and its image is a datastore's, and otherwise as a service that runs its image, arguments and variables, all of them legitimate |
| `ConvertProps.ProjectNamed` | compose/convert.go:101 | the document's project name is usable, and is the given one where that is |
| `ConvertRead.PlanAddonsExact` | compose/convert.go:117-127 | the addons values may refer to are exactly those of the datastores, with their slugs, kinds and credentials, in ascending order of compose names |
| `ConvertRead.UrlRewired` | compose/convert.go:372-396 | a variable with a URL ends up in the document as `${{ slug.KEY }}` of the first addon among its hosts, by alias or URL key; with none among them it keeps its text |
| `ConvertRead.CredEnvExact` | compose/envref.go:71-84 | which init variable of which kind sets which credential |
| `ConvertRead.CredsExact` | compose/envref.go:86-95 | the credentials known of a datastore are non-empty values that its init variables give, and one for each that they do |
| `ConvertRead.RecordsExact` | compose/interp.go:13-66 | resolving a service records exactly its texts that stay unresolved, each under its place and with the names it lacks |
| `ConvertRead.AbsentExact` | compose/convert.go:366-373 | converting an app records exactly its variables without a value, by name, and converting a datastore none |
| `ConvertRead.NotedOnce` | compose/report.go:55-64 | noting env_file paths keeps the list, adds behind it and repeats none |
| `Gate.ResolveVarsEmpty` | compose/interp.go:13-66 | resolving records nothing exactly when image, command, entrypoint, build arguments and environment are fully resolved |
| `Gate.ApplicableAt` | cli/cmd/kusoCli/import.go:152-175 | one service gives the gate nothing to refuse exactly when it is an app without env_file, absent or unresolved values |
| `Gate.AllApplicable` | cli/cmd/kusoCli/import.go:160-175 | every service is applicable exactly when no addon, env_file or unresolved value arises anywhere |
| `Gate.GateOutcome` | cli/cmd/kusoCli/import.go:160-175 | for any overrides, the gate refuses by the first of addons, env_files and unresolved values that is there and not allowed, naming just those |
| `Gate.PassesAt` | cli/cmd/kusoCli/import.go:152-175 | for any overrides, one service gives the gate nothing to refuse exactly when all it contributes is allowed |
| `Gate.GateExact` | cli/cmd/kusoCli/import.go:160-175 | for any overrides, the gate lets a conversion through exactly when every compose service stays a service, names no env_file, leaves no variable to the host and is self-contained, as far as that is not overridden |
| `Gate.GatePassed` | compose/convert.go:360-399 | what passes has no addons, and each service's environment is the pointwise interpolation of its compose environment |
| `SelectEnv.FirstKeysExact` | coolify/types.go:138-147 | the keys are exactly those of selected entries, each once |
| `SelectEnv.SelectedStep` | coolify/types.go:142-147 | one more entry appends its key if new, and replaces the value if not |
| `SelectEnv.SelectEnvVars` | coolify/types.go:135-150 | the pass with a map of indexes yields a selection |
| `SelectEnv.LastValueExact` | coolify/types.go:119-143 | the value selected for a key is the effective value of its last selected entry |
| `SelectEnv.FirstKeysOrdered` | coolify/types.go:138-147 | the keys come in the order in which their first selected entries stand |
| `SelectEnv.SelectionExact` | coolify/types.go:126-150 | a selection has unique keys, exactly the selected ones, in the order of their first selected entries, each with its last entry's value |
| `SelectEnv.OutputExact` | coolify/types.go:119-150 | on the fields themselves: a pair is in the output exactly if the last entry of its name that is neither a preview's nor Coolify's own has that real value, or, that being empty, that value |
| `SelectEnv.OutputOrder` | coolify/types.go:131-148 | a name whose first such entry stands before any of another's comes before it in the output |
| `SelectEnv.IgnoredDropped` | coolify/types.go:126-141 | a preview's entry, Coolify's own and one without a name can be dropped anywhere in the list without changing the output |
| `SelectEnv.SelectionUnique` | coolify/types.go:126-150 | a list has one selection, so these statements determine the output |
| `ShellQuote.QuotedReads` | cli/cmd/kusoCli/incident.go:319-323 | inside the quotes the shell collects exactly the original characters |
| `ShellQuote.QuoteRoundTrip` | cli/cmd/kusoCli/incident.go:319-323 | the shell reads a quoted text as one word, equal to the original, for every text |
| `ShellQuote.QuotedInContext` | cli/cmd/kusoCli/migrate.go:515-533 | wherever it is pasted outside quotes, a quoted text adds exactly its own characters to the word being read and leaves the shell outside quotes |

## Left out

Contracts that say less than the source might be taken to promise:

- CrdSoundness.GuardSound: one direction only, under Comparable. The converse is false as it stands: a change that Comparable excludes can be harmless for a particular tree (a property without constraints named on an open node), and deciding that in general is deciding schema satisfiability. CrdGaps.EveryClauseNeeded shows instead that no clause can be dropped.
- CrdGuard.Walk: says which problems are appended, not in which order those of different children come, nor how often one that two children share; at one node, order and number are exact.
- CrdGuard.WalkFields: the same, for the properties of one node.
- CrdCompare.CompareVersions: the same, for the versions of a document.
- CrdCompare.Compare: the same, for a whole document.
- CrdCompose.WalkTransitive: asks that the middle tree has no empty node and no literal additionalProperties: true; the two lemmas that follow it show both are needed.
- SlugAlloc.Taken.UniqueSlug: its counter is unbounded and its suffix is the decimal form; the counter stays at most two above the number of taken names, where itoa gives that form unless there are 2^63 of them.
- Naming.NamingOrderIndependent: asks for distinct UUIDs, without which a stable sort keeps the order of the inventory.
- EnvRead.UrlReferenced: asks for addons whose compose names Compose allows and for hosts in ASCII.
- EnvRead.ChoiceAnswers: the reason text of a flag is not part of this model.
- UrlRead.UrlHostsRead: asks that no host holds a comma, an at sign or a character that ends the authority.
- Convert.ResolveService: Go visits build arguments and environment in no fixed order, so the records of each are given as a set.
- Convert.DatastoreCreds: a relation, not a function; when two init variables declare one role, Go's map order decides which value counts, and the model allows either.
- Convert.ConvertEnv: its notes and flags are not part of this model, only what it records as unresolved.
- Convert.ConvertService: path, ports, domains, scale, volumes, capabilities and the digest note are not part of this model.
- Convert.ConvertAll: nor are they here.
- Convert.Convert: nor are they here, nor the flags on shared volumes.
- Gate.GatePassed: build arguments without a value pass the gate in the source and here.
- ConvertProps.ConversionIntegrity: says that a reference resolves within the document, not that kuso's chart renders the secret.

What the model abstracts:

- Problem texts, report notes and their flags, Markdown and every error message: only which fact is recorded, for which service and which value.
- CEL atoms, formats, combinators, single regex alternatives and the constraining keywords the guard does not read are opaque predicates on the value (`CrdSchema.Oracle`); CEL rules are a datatype of atoms, trailing disjunctions, conditionals and masked disjunctions; inline flags and `\Q…\E` are not read. Rules that compare with the previous value are taken as rules on one value.
- What the apiserver prunes follows its structural-schema pruning: a literal `additionalProperties: true` keeps a field but no field inside it, and the elements of an array that preserves unknown fields keep theirs. That it never prunes apiVersion, kind and metadata of a resource or an embedded resource, and defaulting during decode, are not part of this model.
- A keyword that constrains nothing, or one present but empty, is only a name in `otherKeys`.
- YAML documents are given as well-formed values: a keyword whose value has the wrong type is not modelled, and neither are non-string mapping keys (a path step of a mapping and one of a list never coincide in `Mask`).
- JSON and YAML numbers are reals; Python's `True == 1` is kept in enums, combinators and defaults (`CrdSchema.PyEq`), and a leaf of a pod template is identified up to it.
- Kubernetes reads a resource `*/sub` of a rule as that subresource of every resource. `held` compares it as plain text, and so does `Rbac.Matches`: a role that needs `pods/sub` is reported although `*/sub` is held.
- rbac_docs, the bundle exclusions, sorting and shortening of the shown list, git, tar, helm and file access in hack/release-impact.py.
- Case mapping between letters outside ASCII: it is exact wherever an ASCII letter results, which is all that slugs, roles and image kinds depend on. A Go string is a sequence of characters rather than bytes.
- urlHosts, shapeFor, nameRole and credPrefixOK are scans without lasting state and are functions here; an addon kind is a datatype rather than a text.
- Application pointers are the `ref` of an application value; two items holding one pointer are one application listed twice.
- Sorting is insertion by key; the source sorts in place with the library's sort, in migrate.go stably.
- flagSharedVolumes, convertVolumes, convertPorts, noteUnmapped and the reserved datastores only add notes or independent fields.
- migrationProjectSlugs, applyMigration, the cobra commands, HTTP calls, coolify/client.go, coolify/api.go and compose/parse.go: plumbing or foreign code.
- NormalizeRepoURL, NormalizeBaseDir, RuntimeForBuildPack, repoSubPath and the counters of the Coolify inventory: single-branch facts.
