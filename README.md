# Implicit-dependency check, modelled in Dafny

The Gradle task `checkImplicitDependencies` of gradle-baseline fails a build
when the project's compiled code uses classes that come only transitively,
from an artifact that is not declared as a dependency. The model covers the
task's reconciliation step. It takes four inputs:

- the set of classes the compiled code references;
- the index from a class to its candidate artifacts;
- the artifacts of the declared first-level dependencies;
- the task's settings: the ignore set, the current project path, the
  suggestion configuration name and the build file path.

For each distinct candidate list, the step drops the list when any member is
produced by the current project, is ignored or is already declared. From each
remaining list it keeps the first element with the lowest display name. It
sorts those picks and, when any are left, fails with one report. The report
gives the count, the build file and one suggestion line per pick, sorted as
strings and framed as a `dependencies { ... }` block.

Modules:

- `Lexicographic` (lexicographic.dfy): the natural string order that
  `ARTIFACT_COMPARATOR` and `sorted()` use. It is proved to be a total order
  and shown to match its textbook definition.
- `Sorting` (sorting.dfy): sorting by a string key. The result is sorted and
  is a permutation of the input. Two sorted arrangements of the same strings
  are equal.
- `Text` (text.dfy): decimal rendering of the count, and joining and splitting
  lines.
- `Artifacts` (artifacts.dfy): the two kinds of artifact (an external module
  or a project's output). Also the project and self-project tests,
  `Stream.min` under the display-name order, and the suggestion line.
- `ImplicitDependencies` (implicit_dependencies.dfy): the filters, the picks,
  the report and the whole check. Also the lemmas about self-exclusion,
  ignoring, declaring, counting, the independence from set iteration order and
  the layout of the failure message.
- `Scenarios` (scenarios.dfy): concrete runs of the check.

The candidate lists are gathered into a hash set, and Java does not specify
its iteration order. `UsedButUndeclared` takes an explicit enumeration `order`
of that set, and `Report` takes the resulting list `used`.
`CheckImplicitDependencies` chooses one enumeration, and its contract proves
that every enumeration yields the same outcome.

The picks of distinct candidate lists are collected into a list, not a set.
An artifact that is the minimum of two different candidate lists (`[b]` and
`[b, f]`) is therefore counted and suggested twice
(`Scenarios.SameArtifactReportedTwice`). In general each line occurs once per
contributing list whose minimum renders as that line
(`ImplicitDependencies.SuggestionMultiplicity`). Suggestion lines are indented
by eight spaces.

The scenarios take `group:name` as an artifact's ignore identity, so ignoring
libfoo means adding `com.example:libfoo` to the ignore set.

## Model

| member | source | states |
|---|---|---|
| Lexicographic.LessEqMeaning | gradle-baseline-java/src/main/groovy/com/palantir/baseline/tasks/CheckImplicitDependenciesTask.java:45-46 | the string order used to compare display names holds exactly when the first string is a prefix of the second or is smaller at the first position where they differ |
| Lexicographic.Reflexive | gradle-baseline-java/src/main/groovy/com/palantir/baseline/tasks/CheckImplicitDependenciesTask.java:45-46 | every display name compares <= 0 to itself |
| Lexicographic.Total | gradle-baseline-java/src/main/groovy/com/palantir/baseline/tasks/CheckImplicitDependenciesTask.java:45-46 | any two display names are comparable one way or the other |
| Lexicographic.Transitive | gradle-baseline-java/src/main/groovy/com/palantir/baseline/tasks/CheckImplicitDependenciesTask.java:45-46 | the comparator's order is transitive |
| Lexicographic.Antisymmetric | gradle-baseline-java/src/main/groovy/com/palantir/baseline/tasks/CheckImplicitDependenciesTask.java:45-46 | two strings each <= the other are equal, so the order on strings is total and strict ties happen only on equal names |
| Sorting.Insert | gradle-baseline-java/src/main/groovy/com/palantir/baseline/tasks/CheckImplicitDependenciesTask.java:86 | inserting into a sorted sequence keeps it sorted and adds exactly the inserted element |
| Sorting.SortBy | gradle-baseline-java/src/main/groovy/com/palantir/baseline/tasks/CheckImplicitDependenciesTask.java:86 | sorting by a key yields a sequence ordered by the key that is a permutation of the input |
| Sorting.SortedStringsUnique | gradle-baseline-java/src/main/groovy/com/palantir/baseline/tasks/CheckImplicitDependenciesTask.java:91 | two sorted orderings of the same multiset of strings are identical, so sorted() fixes the suggestion lines completely |
| Artifacts.MinIndex | gradle-baseline-java/src/main/groovy/com/palantir/baseline/tasks/CheckImplicitDependenciesTask.java:84 | the position min() selects holds a lowest display name, and every earlier element's name is strictly greater (the first minimum wins ties) |
| Artifacts.MinByDisplayName | gradle-baseline-java/src/main/groovy/com/palantir/baseline/tasks/CheckImplicitDependenciesTask.java:84-85 | min() is empty exactly for an empty list; otherwise it is a member whose display name is <= every member's |
| Artifacts.SuggestionLineShape | gradle-baseline-java/src/main/groovy/com/palantir/baseline/tasks/CheckImplicitDependenciesTask.java:101-118 | a suggestion line starts with eight spaces, the configuration name and a space; the notation after it starts with p exactly for project artifacts and with a quote otherwise |
| Artifacts.ProjectLinesIdentifyPath | gradle-baseline-java/src/main/groovy/com/palantir/baseline/tasks/CheckImplicitDependenciesTask.java:101-111 | two project artifacts get the same suggestion line if and only if they have the same project path |
| Artifacts.ExternalLinesIdentifyCoordinate | gradle-baseline-java/src/main/groovy/com/palantir/baseline/tasks/CheckImplicitDependenciesTask.java:101-111 | two external artifacts get the same suggestion line if and only if they have the same group:name coordinate |
| Artifacts.SuggestionLinesDistinguishKinds | gradle-baseline-java/src/main/groovy/com/palantir/baseline/tasks/CheckImplicitDependenciesTask.java:101-118 | a project artifact and an external artifact never get the same suggestion line |
| Artifacts.SuggestionLine | gradle-baseline-java/src/main/groovy/com/palantir/baseline/tasks/CheckImplicitDependenciesTask.java:101-111 | getSuggestionString; its shape is stated by SuggestionLineShape, and ProjectLinesIdentifyPath and ExternalLinesIdentifyCoordinate state that it determines the path or the coordinate |
| Artifacts.DependencyNotation | gradle-baseline-java/src/main/groovy/com/palantir/baseline/tasks/CheckImplicitDependenciesTask.java:102-109 | the project('path') or 'group:name' notation; SuggestionLineShape states which of the two an artifact gets |
| Artifacts.IsProjectArtifact | gradle-baseline-java/src/main/groovy/com/palantir/baseline/tasks/CheckImplicitDependenciesTask.java:116-118 | the artifact comes from a project of this build; SuggestionLineShape and SuggestionLinesDistinguishKinds state how it selects the notation |
| Artifacts.IsArtifactFromCurrentProject | gradle-baseline-java/src/main/groovy/com/palantir/baseline/tasks/CheckImplicitDependenciesTask.java:123-130 | a project artifact of the current project; ReportedPassFilters states that no such artifact is reported, and Scenarios.SelfProvidedClassSucceeds that a class served only by it never fails the check |
| Artifacts.SuggestionLineHasNoNewline | gradle-baseline-java/src/main/groovy/com/palantir/baseline/tasks/CheckImplicitDependenciesTask.java:101-111 | a suggestion line holds no line break when the configuration name and coordinates hold none |
| ImplicitDependencies.UsedButUndeclared | gradle-baseline-java/src/main/groovy/com/palantir/baseline/tasks/CheckImplicitDependenciesTask.java:79-87 | the list of used but undeclared artifacts is sorted by display name and holds exactly the picks of the surviving candidate lists |
| ImplicitDependencies.Report | gradle-baseline-java/src/main/groovy/com/palantir/baseline/tasks/CheckImplicitDependenciesTask.java:88-98 | the check fails exactly when the list is non-empty; the failure counts the list's artifacts and carries one line per artifact, sorted as strings |
| ImplicitDependencies.PicksProvenance | gradle-baseline-java/src/main/groovy/com/palantir/baseline/tasks/CheckImplicitDependenciesTask.java:79-85 | an artifact is picked if and only if it is the min() of an enumerated candidate list that passes all three filters |
| ImplicitDependencies.PicksCount | gradle-baseline-java/src/main/groovy/com/palantir/baseline/tasks/CheckImplicitDependenciesTask.java:72-87 | the number of picks equals the number of distinct non-empty candidate lists that survive the filters |
| ImplicitDependencies.PicksMultiplicity | gradle-baseline-java/src/main/groovy/com/palantir/baseline/tasks/CheckImplicitDependenciesTask.java:79-85 | picks are not de-duplicated: an artifact is picked once for every distinct surviving candidate list it is the min() of |
| ImplicitDependencies.ReportedMultiplicity | gradle-baseline-java/src/main/groovy/com/palantir/baseline/tasks/CheckImplicitDependenciesTask.java:79-87 | after sorting, each artifact still occurs once per distinct contributing list whose min() it is |
| ImplicitDependencies.EnumerationsArePermutations | gradle-baseline-java/src/main/groovy/com/palantir/baseline/tasks/CheckImplicitDependenciesTask.java:72-74 | any two iteration orders of the candidate-list set are permutations of each other |
| ImplicitDependencies.PicksPermutation | gradle-baseline-java/src/main/groovy/com/palantir/baseline/tasks/CheckImplicitDependenciesTask.java:79-85 | permuting the candidate lists permutes the picks |
| ImplicitDependencies.ClassToArtifacts | gradle-baseline-java/src/main/groovy/com/palantir/baseline/tasks/CheckImplicitDependenciesTask.java:72-74 | the candidate list of one referenced class, empty for a class the index does not know; UnindexedClassPicksNothing and ReportedArtifacts state what it contributes |
| ImplicitDependencies.CandidateLists | gradle-baseline-java/src/main/groovy/com/palantir/baseline/tasks/CheckImplicitDependenciesTask.java:72-74 | the set of distinct candidate lists; ReportedArtifacts states that the reported artifacts are exactly the minima of its surviving lists |
| ImplicitDependencies.UnindexedClassPicksNothing | gradle-baseline-java/src/main/groovy/com/palantir/baseline/tasks/CheckImplicitDependenciesTask.java:72-85 | a referenced class the index does not know contributes no pick |
| ImplicitDependencies.ShouldIgnore | gradle-baseline-java/src/main/groovy/com/palantir/baseline/tasks/CheckImplicitDependenciesTask.java:146-148 | the artifact's identity is in the ignore set; IgnoreSuppression and IgnoringRemovesLists state its effect on the report |
| ImplicitDependencies.Survives | gradle-baseline-java/src/main/groovy/com/palantir/baseline/tasks/CheckImplicitDependenciesTask.java:80-82 | a candidate list passes the three filters; PicksProvenance and ReportedPassFilters state that only such lists contribute |
| ImplicitDependencies.Pick | gradle-baseline-java/src/main/groovy/com/palantir/baseline/tasks/CheckImplicitDependenciesTask.java:84-85 | what one list contributes: nothing or its min(); PicksProvenance and PicksMultiplicity state which artifacts and how often |
| ImplicitDependencies.Picks | gradle-baseline-java/src/main/groovy/com/palantir/baseline/tasks/CheckImplicitDependenciesTask.java:79-85 | the picks in enumeration order; PicksCount, PicksPermutation and PicksMultiplicity state its length, its order independence and its multiplicities |
| ImplicitDependencies.RenderAll | gradle-baseline-java/src/main/groovy/com/palantir/baseline/tasks/CheckImplicitDependenciesTask.java:89-90 | the suggestion line of every artifact in order; RenderAllMembers and RenderAllPermutation state its members and its behaviour under permutation |
| ImplicitDependencies.RenderAllMembers | gradle-baseline-java/src/main/groovy/com/palantir/baseline/tasks/CheckImplicitDependenciesTask.java:89-90 | a line is rendered if and only if it is the suggestion line of one of the artifacts |
| ImplicitDependencies.RenderAllPermutation | gradle-baseline-java/src/main/groovy/com/palantir/baseline/tasks/CheckImplicitDependenciesTask.java:89-90 | rendering permuted artifacts permutes the lines |
| ImplicitDependencies.ReportIndependentOfOrder | gradle-baseline-java/src/main/groovy/com/palantir/baseline/tasks/CheckImplicitDependenciesTask.java:72-98 | two iteration orders of the candidate-list set give the same outcome: same count, same lines, same message |
| ImplicitDependencies.ReportIndependentOfEveryOrder | gradle-baseline-java/src/main/groovy/com/palantir/baseline/tasks/CheckImplicitDependenciesTask.java:72-98 | every iteration order gives the outcome of any one fixed order |
| ImplicitDependencies.ReportedArtifacts | gradle-baseline-java/src/main/groovy/com/palantir/baseline/tasks/CheckImplicitDependenciesTask.java:72-87 | an artifact is reported if and only if some referenced class has a candidate list that survives the filters and whose min() it is |
| ImplicitDependencies.CheckImplicitDependencies | gradle-baseline-java/src/main/groovy/com/palantir/baseline/tasks/CheckImplicitDependenciesTask.java:72-98 | the check succeeds exactly when no candidate list contributes; otherwise the count is the number of contributing lists, the lines are sorted, a line appears if and only if it renders the min() of a contributing list, and it appears once per contributing list whose min() renders as it; the outcome is the same for every iteration order |
| ImplicitDependencies.RepresentativeLine | gradle-baseline-java/src/main/groovy/com/palantir/baseline/tasks/CheckImplicitDependenciesTask.java:79-90 | a line is rendered from the reported artifacts if and only if it renders the min() of a contributing candidate list |
| ImplicitDependencies.SuggestionMultiplicity | gradle-baseline-java/src/main/groovy/com/palantir/baseline/tasks/CheckImplicitDependenciesTask.java:79-92 | each sorted suggestion line occurs once per distinct contributing list whose min() renders as that line |
| ImplicitDependencies.SuggestionsOfRepresentatives | gradle-baseline-java/src/main/groovy/com/palantir/baseline/tasks/CheckImplicitDependenciesTask.java:72-92 | for any iteration order, a line is suggested if and only if it renders the min() of a contributing candidate list |
| ImplicitDependencies.SharedRepresentative | gradle-baseline-java/src/main/groovy/com/palantir/baseline/tasks/CheckImplicitDependenciesTask.java:79-97 | when every contributing list has the same minimum, the failure counts each list and every line names that one artifact |
| ImplicitDependencies.ReportedPassFilters | gradle-baseline-java/src/main/groovy/com/palantir/baseline/tasks/CheckImplicitDependenciesTask.java:80-84 | every reported artifact comes from a referenced class whose candidates are all neither self-produced, ignored nor declared, so it is none of these itself |
| ImplicitDependencies.IgnoringRemovesLists | gradle-baseline-java/src/main/groovy/com/palantir/baseline/tasks/CheckImplicitDependenciesTask.java:81 | adding a key to the ignore set removes exactly the contributing lists with a member of that key |
| ImplicitDependencies.DeclaringRemovesLists | gradle-baseline-java/src/main/groovy/com/palantir/baseline/tasks/CheckImplicitDependenciesTask.java:82 | declaring an artifact removes exactly the contributing lists that contain it |
| ImplicitDependencies.IgnoreSuppression | gradle-baseline-java/src/main/groovy/com/palantir/baseline/tasks/CheckImplicitDependenciesTask.java:146-148 | once an artifact's key is ignored it is no longer reported, and nothing new is reported |
| ImplicitDependencies.DeclarationSettles | gradle-baseline-java/src/main/groovy/com/palantir/baseline/tasks/CheckImplicitDependenciesTask.java:75-82 | re-running after declaring a suggested artifact no longer reports it, and nothing new is reported |
| ImplicitDependencies.Headline | gradle-baseline-java/src/main/groovy/com/palantir/baseline/tasks/CheckImplicitDependenciesTask.java:94-97 | the first line of the exception message; HeadlineHasNoNewline and FailureMessageLines state that it is one line and carries the count in decimal |
| ImplicitDependencies.SuggestionBlock | gradle-baseline-java/src/main/groovy/com/palantir/baseline/tasks/CheckImplicitDependenciesTask.java:89-92 | the joined suggestion block; SuggestionBlockLines states that it splits back into the opening line, the lines and the closing brace |
| ImplicitDependencies.HeadlineHasNoNewline | gradle-baseline-java/src/main/groovy/com/palantir/baseline/tasks/CheckImplicitDependenciesTask.java:94-97 | the headline of the failure message is a single line when the build file path holds no line break |
| ImplicitDependencies.SuggestionBlockLines | gradle-baseline-java/src/main/groovy/com/palantir/baseline/tasks/CheckImplicitDependenciesTask.java:92 | the joined block splits back into the opening line, the suggestion lines and the closing brace |
| ImplicitDependencies.SuggestionsHaveNoNewline | gradle-baseline-java/src/main/groovy/com/palantir/baseline/tasks/CheckImplicitDependenciesTask.java:89-91 | no sorted suggestion line contains a line break when the names it is built from contain none |
| ImplicitDependencies.FailureMessageLines | gradle-baseline-java/src/main/groovy/com/palantir/baseline/tasks/CheckImplicitDependenciesTask.java:88-97 | the failure message is, line by line, the headline, the block opening, the sorted suggestion lines and the closing brace, and the number in the headline reads back as the count |
| Text.DecimalString | gradle-baseline-java/src/main/groovy/com/palantir/baseline/tasks/CheckImplicitDependenciesTask.java:95 | the %d rendering of the count is a non-empty string of digits without a leading zero |
| Text.DecimalStringRoundTrip | gradle-baseline-java/src/main/groovy/com/palantir/baseline/tasks/CheckImplicitDependenciesTask.java:95 | reading the rendered count back gives the count |
| Text.SplitJoinLines | gradle-baseline-java/src/main/groovy/com/palantir/baseline/tasks/CheckImplicitDependenciesTask.java:92 | lines joined with a line break split back into the same lines when none contains a break |
| Text.SplitFramedLines | gradle-baseline-java/src/main/groovy/com/palantir/baseline/tasks/CheckImplicitDependenciesTask.java:92 | joining with a prefix line and a suffix line splits back into prefix, lines and suffix |
| Scenarios.TieBreak | gradle-baseline-java/src/main/groovy/com/palantir/baseline/tasks/CheckImplicitDependenciesTask.java:84 | of the candidates b:1.0 and a:1.0, min() selects a:1.0 |
| Scenarios.UndeclaredLibraryReported | gradle-baseline-java/src/main/groovy/com/palantir/baseline/tasks/CheckImplicitDependenciesTask.java:72-98 | with libbaz declared, only libfoo is reported: count 1 and the one line implementation 'com.example:libfoo' |
| Scenarios.IgnoredLibrarySucceeds | gradle-baseline-java/src/main/groovy/com/palantir/baseline/tasks/CheckImplicitDependenciesTask.java:81 | the same run with libfoo's identity ignored succeeds |
| Scenarios.SelfProvidedClassSucceeds | gradle-baseline-java/src/main/groovy/com/palantir/baseline/tasks/CheckImplicitDependenciesTask.java:123-130 | a class provided only by the current project's output never fails the check, whatever is declared |
| Scenarios.TwiceSuggested | gradle-baseline-java/src/main/groovy/com/palantir/baseline/tasks/CheckImplicitDependenciesTask.java:79-97 | two distinct candidate lists with the same minimum make a failure of count 2 whose lines all name that minimum |
| Scenarios.SameArtifactReportedTwice | gradle-baseline-java/src/main/groovy/com/palantir/baseline/tasks/CheckImplicitDependenciesTask.java:79-97 | the same artifact is counted twice and its suggestion line appears twice |

## Left out

- Task registration, the constructor and the Gradle property wiring (lines 53-62 and 150-188) are plumbing. The settings are passed in as the `Config` value.
- Resolving the dependency configurations (lines 66-69) and flattening their module artifacts (lines 75-77) are not modelled. The declared artifacts are an input set.
- Populating the class index (line 70) is not modelled. The index is an input map from a class name to its candidate list. A class the index does not know has the empty list, which produces no pick.
- Scanning bytecode for referenced classes (lines 133-137) is not modelled. The referenced classes are an input set.
- Relativising the build file against the root directory (lines 139-144) is file-system work. The path is an input string.
- The ignore identity of an artifact (the helper the task calls on line 147) is not part of this model. It is the function `Config.ignoreKey`. The scenarios use `group:name` for it.
- Artifact equality, used by the declared-set test on line 82, is modelled as value equality of the `Artifact` datatype.
- Throwing `GradleException` becomes the `Failure` outcome, which carries the count, the lines and the message text.
- The property lookup of the suggestion configuration name fails when the property is unset. This model always has a name.
- The display name of an artifact is an input string. Gradle's rules for forming it are not modelled.
- Java compares strings by UTF-16 code units. The model compares Dafny characters, which agree except for characters outside the Basic Multilingual Plane.
- The count is rendered in ASCII digits; a default locale with another zero digit is not modelled.
- Java does not specify the iteration order of a hash set. The model makes the order a parameter and proves the outcome does not depend on it. Among picks with equal display names, the order `sorted` leaves is fixed by the enumeration. The model does not pin it down because it never reaches the outcome.
