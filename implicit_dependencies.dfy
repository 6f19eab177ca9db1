/**
 * The reconciliation performed by checkImplicitDependencies: from the classes
 * the compiled code references, the class -> candidate artifacts index, the
 * artifacts of the declared dependencies and the task's configuration, find
 * the artifacts that are used but not declared, and either succeed silently
 * or fail with one aggregated report.
 *
 * The candidate lists are gathered into a hash set whose iteration order is
 * not specified; the model makes that order an explicit enumeration of the set
 * and proves that the outcome does not depend on it.
 */
module ImplicitDependencies {
  import opened Wrappers
  import opened Lexicographic
  import opened Sorting
  import opened Text
  import opened Artifacts

  /** The task's inputs besides the class data. ignoreKey is the identity
      string of an artifact that the ignore set is matched against. */
  datatype Config = Config(
    ignore: set<string>,
    ignoreKey: Artifact -> string,
    projectPath: string,
    suggestionConfigurationName: string,
    buildFile: string)

  /** Silent success, or the one fatal report: how many implicit dependencies
      were found, the sorted suggestion lines and the full message. */
  datatype Outcome =
    | Success
    | Failure(count: nat, suggestions: seq<string>, message: string)

  /** The candidate artifacts of a class; a class the index does not know has none. */
  function ClassToArtifacts(index: map<string, seq<Artifact>>, c: string): seq<Artifact> {
    if c in index then index[c] else []
  }

  /** The distinct candidate lists of the referenced classes. */
  function CandidateLists(referenced: set<string>, index: map<string, seq<Artifact>>): set<seq<Artifact>> {
    set c | c in referenced :: ClassToArtifacts(index, c)
  }

  /** A referenced class the index does not know contributes nothing. */
  lemma UnindexedClassPicksNothing(index: map<string, seq<Artifact>>, c: string, declared: set<Artifact>, cfg: Config)
    requires c !in index
    ensures Pick(ClassToArtifacts(index, c), declared, cfg) == []
  {
  }

  /** The artifact's identity string is in the task's ignore set. */
  predicate ShouldIgnore(a: Artifact, cfg: Config) {
    cfg.ignoreKey(a) in cfg.ignore
  }

  predicate NoneFromCurrentProject(l: seq<Artifact>, cfg: Config) {
    forall a :: a in l ==> !IsArtifactFromCurrentProject(a, cfg.projectPath)
  }

  predicate NoneIgnored(l: seq<Artifact>, cfg: Config) {
    forall a :: a in l ==> !ShouldIgnore(a, cfg)
  }

  predicate NoneDeclared(l: seq<Artifact>, declared: set<Artifact>) {
    forall a :: a in l ==> a !in declared
  }

  /** The three filters: a list is dropped as soon as ANY member is self-produced, ignored or declared. */
  predicate Survives(l: seq<Artifact>, declared: set<Artifact>, cfg: Config) {
    NoneFromCurrentProject(l, cfg) && NoneIgnored(l, cfg) && NoneDeclared(l, declared)
  }

  /** What one candidate list contributes after the filters, min and flatMap: nothing or its minimum. */
  function Pick(l: seq<Artifact>, declared: set<Artifact>, cfg: Config): seq<Artifact> {
    if Survives(l, declared, cfg) then
      match MinByDisplayName(l)
      case None => []
      case Some(a) => [a]
    else
      []
  }

  /** The stream of picks, in the order the candidate lists are enumerated. */
  function Picks(order: seq<seq<Artifact>>, declared: set<Artifact>, cfg: Config): seq<Artifact>
    decreases |order|
  {
    if order == [] then [] else Pick(order[0], declared, cfg) + Picks(order[1..], declared, cfg)
  }

  /** usedButUndeclared: the picks sorted by display name. */
  function UsedButUndeclared(order: seq<seq<Artifact>>, declared: set<Artifact>, cfg: Config): (used: seq<Artifact>)
    ensures SortedBy(used, DisplayName)
    ensures multiset(used) == multiset(Picks(order, declared, cfg))
  {
    SortBy(Picks(order, declared, cfg), DisplayName)
  }

  /** The suggestion line of every artifact, in order. */
  function RenderAll(used: seq<Artifact>, configurationName: string): seq<string>
    decreases |used|
  {
    if used == [] then [] else [SuggestionLine(used[0], configurationName)] + RenderAll(used[1..], configurationName)
  }

  function Headline(count: nat, buildFile: string): string {
    "Found " + DecimalString(count) + " implicit dependencies - " + "consider adding the following explicit "
    + "dependencies to '" + buildFile + "', or avoid using classes from these jars:"
  }

  function SuggestionBlock(lines: seq<string>): string {
    "    dependencies {" + "\n" + JoinLines(lines) + "\n" + "    }"
  }

  /** Success when nothing is used but undeclared; otherwise one failure carrying the count and the sorted lines. */
  function Report(used: seq<Artifact>, cfg: Config): (r: Outcome)
    ensures r.Success? <==> used == []
    ensures r.Failure? ==> r.count == |used| == |r.suggestions|
    ensures r.Failure? ==> SortedBy(r.suggestions, Identity)
    ensures r.Failure? ==> multiset(r.suggestions) == multiset(RenderAll(used, cfg.suggestionConfigurationName))
  {
    if used == [] then
      Success
    else
      var lines := SortBy(RenderAll(used, cfg.suggestionConfigurationName), Identity);
      RenderAllLength(used, cfg.suggestionConfigurationName);
      assert |lines| == |multiset(lines)| == |RenderAll(used, cfg.suggestionConfigurationName)|;
      Failure(|used|, lines, Headline(|used|, cfg.buildFile) + "\n" + SuggestionBlock(lines))
  }

  // ---------------------------------------------------------------------------
  // Enumerations of the candidate-list set

  /** order lists the members of s, each once: one possible iteration order of the set. */
  ghost predicate Enumerates(order: seq<seq<Artifact>>, s: set<seq<Artifact>>) {
    && (forall l :: l in order <==> l in s)
    && (forall i, j :: 0 <= i < j < |order| ==> order[i] != order[j])
  }

  lemma {:induction false} EnumerationExists(s: set<seq<Artifact>>)
    ensures exists order :: Enumerates(order, s)
    decreases |s|
  {
    if s == {} {
      assert Enumerates([], s);
    } else {
      var l :| l in s;
      EnumerationExists(s - {l});
      var rest :| Enumerates(rest, s - {l});
      var order := [l] + rest;
      forall i, j | 0 <= i < j < |order|
        ensures order[i] != order[j]
      {
        assert order[j] == rest[j - 1];
        if i > 0 {
          assert order[i] == rest[i - 1];
        }
      }
      assert Enumerates(order, s);
    }
  }

  lemma {:induction false} EnumerationTail(order: seq<seq<Artifact>>, s: set<seq<Artifact>>)
    requires Enumerates(order, s) && order != []
    ensures Enumerates(order[1..], s - {order[0]})
  {
    forall l | l in order[1..]
      ensures l != order[0]
    {
      var j :| 0 <= j < |order[1..]| && order[1..][j] == l;
      assert order[j + 1] == l;
    }
    forall l | l in s - {order[0]}
      ensures l in order[1..]
    {
      var j :| 0 <= j < |order| && order[j] == l;
      assert order[1..][j - 1] == l;
    }
  }

  /** In a sequence without repetitions every member occurs once. */
  lemma {:induction false} DistinctMultiplicity(order: seq<seq<Artifact>>, s: set<seq<Artifact>>)
    requires Enumerates(order, s)
    ensures forall l :: multiset(order)[l] == if l in s then 1 else 0
    decreases |order|
  {
    if order != [] {
      EnumerationTail(order, s);
      DistinctMultiplicity(order[1..], s - {order[0]});
      assert order == [order[0]] + order[1..];
      assert multiset(order) == multiset{order[0]} + multiset(order[1..]);
    }
  }

  lemma {:induction false} EnumerationsArePermutations(o1: seq<seq<Artifact>>, o2: seq<seq<Artifact>>, s: set<seq<Artifact>>)
    requires Enumerates(o1, s) && Enumerates(o2, s)
    ensures multiset(o1) == multiset(o2)
  {
    DistinctMultiplicity(o1, s);
    DistinctMultiplicity(o2, s);
    assert forall l :: multiset(o1)[l] == multiset(o2)[l];
  }

  // ---------------------------------------------------------------------------
  // Picks

  /** l survives the filters and a is its minimum. */
  ghost predicate Represents(l: seq<Artifact>, a: Artifact, declared: set<Artifact>, cfg: Config) {
    Survives(l, declared, cfg) && MinByDisplayName(l) == Some(a)
  }

  /** The candidate lists of s that survive the filters and are not empty. */
  ghost function Contributing(s: set<seq<Artifact>>, declared: set<Artifact>, cfg: Config): set<seq<Artifact>> {
    set l | l in s && l != [] && Survives(l, declared, cfg)
  }

  lemma {:induction false} PicksAppend(a: seq<seq<Artifact>>, b: seq<seq<Artifact>>, declared: set<Artifact>, cfg: Config)
    ensures Picks(a + b, declared, cfg) == Picks(a, declared, cfg) + Picks(b, declared, cfg)
    decreases |a|
  {
    if a == [] {
      assert a + b == b;
    } else {
      assert (a + b)[0] == a[0] && (a + b)[1..] == a[1..] + b;
      PicksAppend(a[1..], b, declared, cfg);
    }
  }

  /** An artifact is picked exactly when it is the minimum of some enumerated list that survives the filters. */
  lemma {:induction false} PicksProvenance(order: seq<seq<Artifact>>, declared: set<Artifact>, cfg: Config)
    ensures forall a :: a in Picks(order, declared, cfg) <==> exists l :: l in order && Represents(l, a, declared, cfg)
    decreases |order|
  {
    if order != [] {
      PicksProvenance(order[1..], declared, cfg);
      forall a
        ensures a in Picks(order, declared, cfg) <==> exists l :: l in order && Represents(l, a, declared, cfg)
      {
        if a in Pick(order[0], declared, cfg) {
          assert Represents(order[0], a, declared, cfg);
        } else if a in Picks(order[1..], declared, cfg) {
          var l :| l in order[1..] && Represents(l, a, declared, cfg);
          assert l in order;
        }
        if exists l :: l in order && Represents(l, a, declared, cfg) {
          var l :| l in order && Represents(l, a, declared, cfg);
          if l == order[0] {
            assert a in Pick(order[0], declared, cfg);
          } else {
            assert l in order[1..];
          }
        }
      }
    }
  }

  /** One pick per distinct non-empty surviving list. */
  lemma {:induction false} PicksCount(order: seq<seq<Artifact>>, s: set<seq<Artifact>>, declared: set<Artifact>, cfg: Config)
    requires Enumerates(order, s)
    ensures |Picks(order, declared, cfg)| == |Contributing(s, declared, cfg)|
    decreases |order|
  {
    var c := Contributing(s, declared, cfg);
    if order == [] {
      assert s == {};
      assert c == {};
    } else {
      var l := order[0];
      EnumerationTail(order, s);
      PicksCount(order[1..], s - {l}, declared, cfg);
      var c' := Contributing(s - {l}, declared, cfg);
      if l != [] && Survives(l, declared, cfg) {
        assert c == c' + {l};
        assert l !in c';
      } else {
        assert c == c';
      }
    }
  }

  /** How many times x occurs in s. */
  ghost function Occurrences<T>(s: seq<T>, x: T): nat {
    multiset(s)[x]
  }

  /** The lists of c whose minimum is a. */
  ghost function WithMinimum(c: set<seq<Artifact>>, a: Artifact): set<seq<Artifact>> {
    set l | l in c && MinByDisplayName(l) == Some(a)
  }

  /** The lists of c whose minimum has the suggestion line x. */
  ghost function RenderingAs(c: set<seq<Artifact>>, x: string, configurationName: string): set<seq<Artifact>> {
    set l | l in c && MinByDisplayName(l).Some? && SuggestionLine(MinByDisplayName(l).value, configurationName) == x
  }

  /** Removing one list from s removes it from the contributing lists with minimum a when it is one of them. */
  lemma WithMinimumStep(s: set<seq<Artifact>>, l: seq<Artifact>, declared: set<Artifact>, cfg: Config, a: Artifact)
    requires l in s
    ensures |WithMinimum(Contributing(s, declared, cfg), a)|
      == |WithMinimum(Contributing(s - {l}, declared, cfg), a)| + if a in Pick(l, declared, cfg) then 1 else 0
  {
    var m := WithMinimum(Contributing(s, declared, cfg), a);
    var m' := WithMinimum(Contributing(s - {l}, declared, cfg), a);
    if a in Pick(l, declared, cfg) {
      assert m == m' + {l};
    } else {
      assert m == m';
    }
  }

  /** Removing one list from s removes it from the contributing lists rendering as x when it is one of them. */
  lemma RenderingAsStep(s: set<seq<Artifact>>, l: seq<Artifact>, declared: set<Artifact>, cfg: Config, x: string)
    requires l in s
    ensures var conf := cfg.suggestionConfigurationName;
      |RenderingAs(Contributing(s, declared, cfg), x, conf)|
      == |RenderingAs(Contributing(s - {l}, declared, cfg), x, conf)| + if x in RenderAll(Pick(l, declared, cfg), conf) then 1 else 0
  {
    var conf := cfg.suggestionConfigurationName;
    var m := RenderingAs(Contributing(s, declared, cfg), x, conf);
    var m' := RenderingAs(Contributing(s - {l}, declared, cfg), x, conf);
    var p := Pick(l, declared, cfg);
    if l != [] && Survives(l, declared, cfg) {
      assert p == [MinByDisplayName(l).value];
      assert RenderAll(p, conf) == [SuggestionLine(p[0], conf)];
    } else {
      assert RenderAll(p, conf) == [];
    }
    if x in RenderAll(p, conf) {
      assert m == m' + {l};
    } else {
      assert m == m';
    }
  }

  /**
   * Picks are not de-duplicated: an artifact is picked once for every
   * distinct contributing list it is the minimum of.
   */
  lemma {:induction false} PicksMultiplicity(order: seq<seq<Artifact>>, s: set<seq<Artifact>>, declared: set<Artifact>, cfg: Config, a: Artifact)
    requires Enumerates(order, s)
    ensures multiset(Picks(order, declared, cfg))[a] == |WithMinimum(Contributing(s, declared, cfg), a)|
    decreases |order|
  {
    if order == [] {
      assert s == {};
      assert WithMinimum(Contributing(s, declared, cfg), a) == {};
    } else {
      var l := order[0];
      EnumerationTail(order, s);
      PicksMultiplicity(order[1..], s - {l}, declared, cfg, a);
      WithMinimumStep(s, l, declared, cfg, a);
      assert multiset(Picks(order, declared, cfg)) == multiset(Pick(l, declared, cfg)) + multiset(Picks(order[1..], declared, cfg));
      assert multiset(Pick(l, declared, cfg))[a] == if a in Pick(l, declared, cfg) then 1 else 0;
    }
  }

  /** The same count for the rendered picks: a line occurs once per contributing list whose minimum renders as it. */
  lemma {:induction false} RenderedPicksMultiplicity(order: seq<seq<Artifact>>, s: set<seq<Artifact>>, declared: set<Artifact>, cfg: Config, x: string)
    requires Enumerates(order, s)
    ensures var conf := cfg.suggestionConfigurationName;
      multiset(RenderAll(Picks(order, declared, cfg), conf))[x] == |RenderingAs(Contributing(s, declared, cfg), x, conf)|
    decreases |order|
  {
    var conf := cfg.suggestionConfigurationName;
    if order == [] {
      assert s == {};
      assert RenderingAs(Contributing(s, declared, cfg), x, conf) == {};
    } else {
      var l := order[0];
      EnumerationTail(order, s);
      RenderedPicksMultiplicity(order[1..], s - {l}, declared, cfg, x);
      RenderingAsStep(s, l, declared, cfg, x);
      RenderAllAppend(Pick(l, declared, cfg), Picks(order[1..], declared, cfg), conf);
      var head := RenderAll(Pick(l, declared, cfg), conf);
      assert multiset(head)[x] == if x in head then 1 else 0;
    }
  }

  /** The picks of a sequence are those of one element and of the rest. */
  lemma {:induction false} PicksRemoveAt(o: seq<seq<Artifact>>, k: nat, declared: set<Artifact>, cfg: Config)
    requires k < |o|
    ensures multiset(Picks(o, declared, cfg))
      == multiset(Pick(o[k], declared, cfg)) + multiset(Picks(o[..k] + o[k + 1..], declared, cfg))
  {
    var front, x, back := o[..k], o[k], o[k + 1..];
    assert o == front + ([x] + back);
    PicksAppend(front, [x] + back, declared, cfg);
    PicksAppend([x], back, declared, cfg);
    PicksAppend(front, back, declared, cfg);
    assert [x][1..] == [];
  }

  lemma {:induction false} PicksPermutation(o1: seq<seq<Artifact>>, o2: seq<seq<Artifact>>, declared: set<Artifact>, cfg: Config)
    requires multiset(o1) == multiset(o2)
    ensures multiset(Picks(o1, declared, cfg)) == multiset(Picks(o2, declared, cfg))
    decreases |o1|
  {
    if o1 == [] {
      assert |o2| == |multiset(o2)| == 0;
    } else {
      var k := PermutationSplit(o1, o2);
      PicksPermutation(o1[1..], o2[..k] + o2[k + 1..], declared, cfg);
      PicksRemoveAt(o2, k, declared, cfg);
    }
  }

  // ---------------------------------------------------------------------------
  // Rendering

  lemma {:induction false} RenderAllLength(used: seq<Artifact>, configurationName: string)
    ensures |RenderAll(used, configurationName)| == |used|
    decreases |used|
  {
    if used != [] {
      RenderAllLength(used[1..], configurationName);
    }
  }

  lemma {:induction false} RenderAllAppend(a: seq<Artifact>, b: seq<Artifact>, configurationName: string)
    ensures RenderAll(a + b, configurationName) == RenderAll(a, configurationName) + RenderAll(b, configurationName)
    decreases |a|
  {
    if a == [] {
      assert a + b == b;
    } else {
      assert (a + b)[0] == a[0] && (a + b)[1..] == a[1..] + b;
      RenderAllAppend(a[1..], b, configurationName);
    }
  }

  /** The lines rendered are exactly the lines of the artifacts given. */
  lemma {:induction false} RenderAllMembers(used: seq<Artifact>, configurationName: string)
    ensures forall x :: x in RenderAll(used, configurationName) <==> exists a :: a in used && x == SuggestionLine(a, configurationName)
    decreases |used|
  {
    if used != [] {
      RenderAllMembers(used[1..], configurationName);
      forall x
        ensures x in RenderAll(used, configurationName) <==> exists a :: a in used && x == SuggestionLine(a, configurationName)
      {
        if x in RenderAll(used[1..], configurationName) {
          var a :| a in used[1..] && x == SuggestionLine(a, configurationName);
          assert a in used;
        }
        if exists a :: a in used && x == SuggestionLine(a, configurationName) {
          var a :| a in used && x == SuggestionLine(a, configurationName);
          if a != used[0] {
            assert a in used[1..];
          }
        }
      }
    }
  }

  lemma {:induction false} RenderAllRemoveAt(u: seq<Artifact>, k: nat, configurationName: string)
    requires k < |u|
    ensures multiset(RenderAll(u, configurationName))
      == multiset{SuggestionLine(u[k], configurationName)} + multiset(RenderAll(u[..k] + u[k + 1..], configurationName))
  {
    var front, x, back := u[..k], u[k], u[k + 1..];
    assert u == front + ([x] + back);
    RenderAllAppend(front, [x] + back, configurationName);
    RenderAllAppend([x], back, configurationName);
    RenderAllAppend(front, back, configurationName);
    assert [x][1..] == [];
  }

  lemma {:induction false} RenderAllPermutation(u1: seq<Artifact>, u2: seq<Artifact>, configurationName: string)
    requires multiset(u1) == multiset(u2)
    ensures multiset(RenderAll(u1, configurationName)) == multiset(RenderAll(u2, configurationName))
    decreases |u1|
  {
    if u1 == [] {
      assert |u2| == |multiset(u2)| == 0;
    } else {
      var k := PermutationSplit(u1, u2);
      RenderAllPermutation(u1[1..], u2[..k] + u2[k + 1..], configurationName);
      RenderAllRemoveAt(u2, k, configurationName);
    }
  }

  // ---------------------------------------------------------------------------
  // The check as a whole

  /** Two enumerations of the same candidate lists give the same outcome, message text included. */
  lemma {:induction false} ReportIndependentOfOrder(s: set<seq<Artifact>>, o1: seq<seq<Artifact>>, o2: seq<seq<Artifact>>, declared: set<Artifact>, cfg: Config)
    requires Enumerates(o1, s) && Enumerates(o2, s)
    ensures Report(UsedButUndeclared(o1, declared, cfg), cfg) == Report(UsedButUndeclared(o2, declared, cfg), cfg)
  {
    EnumerationsArePermutations(o1, o2, s);
    PicksPermutation(o1, o2, declared, cfg);
    var u1 := UsedButUndeclared(o1, declared, cfg);
    var u2 := UsedButUndeclared(o2, declared, cfg);
    assert |u1| == |multiset(u1)| == |multiset(u2)| == |u2|;
    if u1 != [] {
      var conf := cfg.suggestionConfigurationName;
      RenderAllPermutation(u1, u2, conf);
      var r1 := Report(u1, cfg);
      var r2 := Report(u2, cfg);
      SortedStringsUnique(r1.suggestions, r2.suggestions);
    }
  }

  lemma {:induction false} ReportIndependentOfEveryOrder(s: set<seq<Artifact>>, order: seq<seq<Artifact>>, declared: set<Artifact>, cfg: Config)
    requires Enumerates(order, s)
    ensures forall o :: Enumerates(o, s) ==> Report(UsedButUndeclared(o, declared, cfg), cfg) == Report(UsedButUndeclared(order, declared, cfg), cfg)
  {
    forall o | Enumerates(o, s)
      ensures Report(UsedButUndeclared(o, declared, cfg), cfg) == Report(UsedButUndeclared(order, declared, cfg), cfg)
    {
      ReportIndependentOfOrder(s, o, order, declared, cfg);
    }
  }

  /** The reported artifacts are exactly the minima of the referenced classes' candidate lists that survive the filters. */
  lemma {:induction false} ReportedArtifacts(referenced: set<string>, index: map<string, seq<Artifact>>, declared: set<Artifact>, cfg: Config, order: seq<seq<Artifact>>)
    requires Enumerates(order, CandidateLists(referenced, index))
    ensures forall a :: a in UsedButUndeclared(order, declared, cfg) <==>
      exists c :: c in referenced && Represents(ClassToArtifacts(index, c), a, declared, cfg)
  {
    PicksProvenance(order, declared, cfg);
    forall a
      ensures a in UsedButUndeclared(order, declared, cfg) <==>
        exists c :: c in referenced && Represents(ClassToArtifacts(index, c), a, declared, cfg)
    {
      assert a in UsedButUndeclared(order, declared, cfg) <==> a in Picks(order, declared, cfg) by {
        assert a in multiset(UsedButUndeclared(order, declared, cfg)) <==> a in multiset(Picks(order, declared, cfg));
      }
      if a in Picks(order, declared, cfg) {
        var l :| l in order && Represents(l, a, declared, cfg);
        var c :| c in referenced && ClassToArtifacts(index, c) == l;
      }
      if exists c :: c in referenced && Represents(ClassToArtifacts(index, c), a, declared, cfg) {
        var c :| c in referenced && Represents(ClassToArtifacts(index, c), a, declared, cfg);
        assert ClassToArtifacts(index, c) in order;
      }
    }
  }

  /** Each artifact is reported once per distinct contributing list it is the minimum of. */
  lemma {:induction false} ReportedMultiplicity(referenced: set<string>, index: map<string, seq<Artifact>>, declared: set<Artifact>, cfg: Config, order: seq<seq<Artifact>>)
    requires Enumerates(order, CandidateLists(referenced, index))
    ensures forall a :: Occurrences(UsedButUndeclared(order, declared, cfg), a) == |WithMinimum(Contributing(CandidateLists(referenced, index), declared, cfg), a)|
  {
    forall a
      ensures multiset(UsedButUndeclared(order, declared, cfg))[a]
        == |WithMinimum(Contributing(CandidateLists(referenced, index), declared, cfg), a)|
    {
      PicksMultiplicity(order, CandidateLists(referenced, index), declared, cfg, a);
    }
  }

  /** Each suggestion line occurs once per distinct contributing list whose minimum renders as it. */
  lemma {:induction false} SuggestionMultiplicity(referenced: set<string>, index: map<string, seq<Artifact>>, declared: set<Artifact>, cfg: Config, order: seq<seq<Artifact>>)
    requires Enumerates(order, CandidateLists(referenced, index))
    ensures var r := Report(UsedButUndeclared(order, declared, cfg), cfg);
      r.Failure? ==> forall x :: Occurrences(r.suggestions, x) == |RenderingAs(Contributing(CandidateLists(referenced, index), declared, cfg), x, cfg.suggestionConfigurationName)|
  {
    var conf := cfg.suggestionConfigurationName;
    var used := UsedButUndeclared(order, declared, cfg);
    RenderAllPermutation(used, Picks(order, declared, cfg), conf);
    forall x
      ensures multiset(RenderAll(used, conf))[x]
        == |RenderingAs(Contributing(CandidateLists(referenced, index), declared, cfg), x, conf)|
    {
      RenderedPicksMultiplicity(order, CandidateLists(referenced, index), declared, cfg, x);
    }
  }

  /**
   * checkImplicitDependencies as a function of its inputs. The candidate lists
   * are visited in some enumeration order of their set; every order gives this
   * same outcome.
   */
  ghost function CheckImplicitDependencies(referenced: set<string>, index: map<string, seq<Artifact>>, declared: set<Artifact>, cfg: Config): (r: Outcome)
    ensures r.Success? <==> Contributing(CandidateLists(referenced, index), declared, cfg) == {}
    ensures r.Failure? ==> r.count == |Contributing(CandidateLists(referenced, index), declared, cfg)| == |r.suggestions|
    ensures r.Failure? ==> SortedBy(r.suggestions, Identity)
    ensures r.Failure? ==> forall x :: x in r.suggestions <==>
      exists l, a :: l in Contributing(CandidateLists(referenced, index), declared, cfg)
        && MinByDisplayName(l) == Some(a) && x == SuggestionLine(a, cfg.suggestionConfigurationName)
    ensures r.Failure? ==> forall x :: Occurrences(r.suggestions, x) == |RenderingAs(Contributing(CandidateLists(referenced, index), declared, cfg), x, cfg.suggestionConfigurationName)|
    ensures forall order :: Enumerates(order, CandidateLists(referenced, index)) ==>
      Report(UsedButUndeclared(order, declared, cfg), cfg) == r
  {
    var s := CandidateLists(referenced, index);
    EnumerationExists(s);
    var order :| Enumerates(order, s);
    PicksCount(order, s, declared, cfg);
    assert |UsedButUndeclared(order, declared, cfg)| == |Picks(order, declared, cfg)| by {
      var used := UsedButUndeclared(order, declared, cfg);
      assert |used| == |multiset(used)|;
    }
    ReportIndependentOfEveryOrder(s, order, declared, cfg);
    SuggestionsOfRepresentatives(referenced, index, declared, cfg, order);
    SuggestionMultiplicity(referenced, index, declared, cfg, order);
    Report(UsedButUndeclared(order, declared, cfg), cfg)
  }

  /** A line is rendered from the reported artifacts exactly when it renders the minimum of a contributing list. */
  lemma {:induction false} RepresentativeLine(referenced: set<string>, index: map<string, seq<Artifact>>, declared: set<Artifact>, cfg: Config, order: seq<seq<Artifact>>, x: string)
    requires Enumerates(order, CandidateLists(referenced, index))
    ensures x in RenderAll(UsedButUndeclared(order, declared, cfg), cfg.suggestionConfigurationName) <==>
      exists l, a :: l in Contributing(CandidateLists(referenced, index), declared, cfg)
        && MinByDisplayName(l) == Some(a) && x == SuggestionLine(a, cfg.suggestionConfigurationName)
  {
    var s := CandidateLists(referenced, index);
    var conf := cfg.suggestionConfigurationName;
    var used := UsedButUndeclared(order, declared, cfg);
    ReportedArtifacts(referenced, index, declared, cfg, order);
    RenderAllMembers(used, conf);
    if x in RenderAll(used, conf) {
      var a :| a in used && x == SuggestionLine(a, conf);
      var c :| c in referenced && Represents(ClassToArtifacts(index, c), a, declared, cfg);
      assert ClassToArtifacts(index, c) in Contributing(s, declared, cfg);
    }
    if exists l, a :: l in Contributing(s, declared, cfg) && MinByDisplayName(l) == Some(a) && x == SuggestionLine(a, conf) {
      var l, a :| l in Contributing(s, declared, cfg) && MinByDisplayName(l) == Some(a) && x == SuggestionLine(a, conf);
      var c :| c in referenced && ClassToArtifacts(index, c) == l;
      assert Represents(ClassToArtifacts(index, c), a, declared, cfg);
      assert a in used;
    }
  }

  /** The suggestion lines are those of the minima of the contributing lists. */
  lemma {:induction false} SuggestionsOfRepresentatives(referenced: set<string>, index: map<string, seq<Artifact>>, declared: set<Artifact>, cfg: Config, order: seq<seq<Artifact>>)
    requires Enumerates(order, CandidateLists(referenced, index))
    ensures var r := Report(UsedButUndeclared(order, declared, cfg), cfg);
      r.Failure? ==> forall x :: x in r.suggestions <==>
        exists l, a :: l in Contributing(CandidateLists(referenced, index), declared, cfg)
          && MinByDisplayName(l) == Some(a) && x == SuggestionLine(a, cfg.suggestionConfigurationName)
  {
    var conf := cfg.suggestionConfigurationName;
    var used := UsedButUndeclared(order, declared, cfg);
    var r := Report(used, cfg);
    if r.Failure? {
      forall x
        ensures x in r.suggestions <==>
          exists l, a :: l in Contributing(CandidateLists(referenced, index), declared, cfg)
            && MinByDisplayName(l) == Some(a) && x == SuggestionLine(a, conf)
      {
        RepresentativeLine(referenced, index, declared, cfg, order, x);
        assert x in r.suggestions <==> x in RenderAll(used, conf) by {
          assert x in multiset(r.suggestions) <==> x in multiset(RenderAll(used, conf));
        }
      }
    }
  }

  /** When every contributing list has the same minimum, the report repeats that one line once per list. */
  lemma {:induction false} SharedRepresentative(referenced: set<string>, index: map<string, seq<Artifact>>, declared: set<Artifact>, cfg: Config, lists: set<seq<Artifact>>, a: Artifact)
    requires Contributing(CandidateLists(referenced, index), declared, cfg) == lists
    requires lists != {}
    requires forall l :: l in lists ==> MinByDisplayName(l) == Some(a)
    ensures var r := CheckImplicitDependencies(referenced, index, declared, cfg);
      && r.Failure?
      && r.count == |r.suggestions| == |lists|
      && forall i :: 0 <= i < |r.suggestions| ==> r.suggestions[i] == SuggestionLine(a, cfg.suggestionConfigurationName)
  {
    var r := CheckImplicitDependencies(referenced, index, declared, cfg);
    var line := SuggestionLine(a, cfg.suggestionConfigurationName);
    forall i | 0 <= i < |r.suggestions|
      ensures r.suggestions[i] == line
    {
      assert r.suggestions[i] in r.suggestions;
    }
  }

  // ---------------------------------------------------------------------------
  // The filters

  /**
   * Every reported artifact is the minimum of a referenced class's candidate
   * list none of whose members is produced by the current project, ignored or
   * declared; in particular it is none of these itself.
   */
  lemma {:induction false} ReportedPassFilters(referenced: set<string>, index: map<string, seq<Artifact>>, declared: set<Artifact>, cfg: Config, order: seq<seq<Artifact>>)
    requires Enumerates(order, CandidateLists(referenced, index))
    ensures forall a :: a in UsedButUndeclared(order, declared, cfg) ==>
      exists c :: c in referenced && a in ClassToArtifacts(index, c)
        && NoneFromCurrentProject(ClassToArtifacts(index, c), cfg)
        && NoneIgnored(ClassToArtifacts(index, c), cfg)
        && NoneDeclared(ClassToArtifacts(index, c), declared)
    ensures forall a :: a in UsedButUndeclared(order, declared, cfg) ==>
      !IsArtifactFromCurrentProject(a, cfg.projectPath) && !ShouldIgnore(a, cfg) && a !in declared
  {
    ReportedArtifacts(referenced, index, declared, cfg, order);
  }

  /** Ignoring one more identity string removes exactly the contributing lists holding an artifact with that identity. */
  lemma {:induction false} IgnoringRemovesLists(s: set<seq<Artifact>>, declared: set<Artifact>, cfg: Config, key: string)
    ensures Contributing(s, declared, cfg.(ignore := cfg.ignore + {key})) ==
      set l | l in Contributing(s, declared, cfg) && forall b :: b in l ==> cfg.ignoreKey(b) != key
  {
    var cfg' := cfg.(ignore := cfg.ignore + {key});
    forall l | l in s
      ensures Survives(l, declared, cfg') <==> Survives(l, declared, cfg) && forall b :: b in l ==> cfg.ignoreKey(b) != key
    {
      assert NoneFromCurrentProject(l, cfg') == NoneFromCurrentProject(l, cfg);
    }
  }

  /** Declaring one more artifact removes exactly the contributing lists that hold it. */
  lemma {:induction false} DeclaringRemovesLists(s: set<seq<Artifact>>, declared: set<Artifact>, cfg: Config, a: Artifact)
    ensures Contributing(s, declared + {a}, cfg) == set l | l in Contributing(s, declared, cfg) && a !in l
  {
    forall l | l in s
      ensures Survives(l, declared + {a}, cfg) <==> Survives(l, declared, cfg) && a !in l
    {
    }
  }

  /**
   * Adding an artifact's identity to the ignore set silences it on the next
   * run, even where its list has members that are not ignored, and reports
   * nothing that was not reported before.
   */
  lemma {:induction false} IgnoreSuppression(referenced: set<string>, index: map<string, seq<Artifact>>, declared: set<Artifact>, cfg: Config, a: Artifact, order: seq<seq<Artifact>>)
    requires Enumerates(order, CandidateLists(referenced, index))
    ensures a !in UsedButUndeclared(order, declared, cfg.(ignore := cfg.ignore + {cfg.ignoreKey(a)}))
    ensures forall b :: b in UsedButUndeclared(order, declared, cfg.(ignore := cfg.ignore + {cfg.ignoreKey(a)})) ==>
      b in UsedButUndeclared(order, declared, cfg)
  {
    var cfg' := cfg.(ignore := cfg.ignore + {cfg.ignoreKey(a)});
    ReportedArtifacts(referenced, index, declared, cfg, order);
    ReportedArtifacts(referenced, index, declared, cfg', order);
    forall b | b in UsedButUndeclared(order, declared, cfg')
      ensures b != a && b in UsedButUndeclared(order, declared, cfg)
    {
      var c :| c in referenced && Represents(ClassToArtifacts(index, c), b, declared, cfg');
      assert Represents(ClassToArtifacts(index, c), b, declared, cfg);
    }
  }

  /**
   * Once a reported artifact is declared, the next run with the same
   * referenced classes no longer reports it, and reports nothing new.
   */
  lemma {:induction false} DeclarationSettles(referenced: set<string>, index: map<string, seq<Artifact>>, declared: set<Artifact>, cfg: Config, a: Artifact, order: seq<seq<Artifact>>)
    requires Enumerates(order, CandidateLists(referenced, index))
    ensures a !in UsedButUndeclared(order, declared + {a}, cfg)
    ensures forall b :: b in UsedButUndeclared(order, declared + {a}, cfg) ==> b in UsedButUndeclared(order, declared, cfg)
  {
    ReportedArtifacts(referenced, index, declared, cfg, order);
    ReportedArtifacts(referenced, index, declared + {a}, cfg, order);
    forall b | b in UsedButUndeclared(order, declared + {a}, cfg)
      ensures b != a && b in UsedButUndeclared(order, declared, cfg)
    {
      var c :| c in referenced && Represents(ClassToArtifacts(index, c), b, declared + {a}, cfg);
      assert Represents(ClassToArtifacts(index, c), b, declared, cfg);
    }
  }

  // ---------------------------------------------------------------------------
  // The failure message

  // The literal pieces of the headline, each checked on its own: checking them
  // inside HeadlineHasNoNewline costs far more.

  lemma HeadlineOpeningHasNoNewline()
    ensures NoNewline("Found ") && NoNewline(" implicit dependencies - ")
  {
  }

  lemma HeadlineAdviceHasNoNewline()
    ensures NoNewline("consider adding the following explicit ")
  {
  }

  lemma HeadlineClosingHasNoNewline()
    ensures NoNewline("dependencies to '") && NoNewline("', or avoid using classes from these jars:")
  {
  }

  lemma {:induction false} HeadlineHasNoNewline(count: nat, buildFile: string)
    requires NoNewline(buildFile)
    ensures NoNewline(Headline(count, buildFile))
  {
    var digits := DecimalString(count);
    forall i | 0 <= i < |digits|
      ensures digits[i] != '\n'
    {
      assert IsDigit(digits[i]);
    }
    HeadlineOpeningHasNoNewline();
    HeadlineAdviceHasNoNewline();
    HeadlineClosingHasNoNewline();
    var h1 := "Found " + digits;
    var h2 := h1 + " implicit dependencies - ";
    var h3 := h2 + "consider adding the following explicit ";
    var h4 := h3 + "dependencies to '";
    var h5 := h4 + buildFile;
    assert NoNewline(h1) && NoNewline(h2) && NoNewline(h3) && NoNewline(h4) && NoNewline(h5);
    assert Headline(count, buildFile) == h5 + "', or avoid using classes from these jars:";
  }

  /** The suggestion block reads back as its header, its lines and its footer. */
  lemma {:induction false} SuggestionBlockLines(lines: seq<string>)
    requires lines != []
    requires forall i :: 0 <= i < |lines| ==> NoNewline(lines[i])
    ensures SplitLines(SuggestionBlock(lines)) == ["    dependencies {"] + lines + ["    }"]
  {
    assert NoNewline("    dependencies {") && NoNewline("    }");
    SplitFramedLines("    dependencies {", lines, "    }");
  }

  lemma {:induction false} SuggestionsHaveNoNewline(used: seq<Artifact>, cfg: Config)
    requires used != []
    requires NoNewline(cfg.suggestionConfigurationName)
    requires forall a :: a in used ==> (a.Project? ==> NoNewline(a.path)) && (a.External? ==> NoNewline(a.group) && NoNewline(a.name))
    ensures forall i :: 0 <= i < |Report(used, cfg).suggestions| ==> NoNewline(Report(used, cfg).suggestions[i])
  {
    var conf := cfg.suggestionConfigurationName;
    var lines := Report(used, cfg).suggestions;
    RenderAllMembers(used, conf);
    forall i | 0 <= i < |lines|
      ensures NoNewline(lines[i])
    {
      assert lines[i] in multiset(lines);
      assert lines[i] in RenderAll(used, conf);
      var a :| a in used && lines[i] == SuggestionLine(a, conf);
      SuggestionLineHasNoNewline(a, conf);
    }
  }

  /**
   * Read line by line, the failure message is the headline with the count in
   * decimal and the build file, the "dependencies {" header, one line per
   * suggestion in sorted order, and the closing brace.
   */
  lemma {:induction false} FailureMessageLines(used: seq<Artifact>, cfg: Config)
    requires used != []
    requires NoNewline(cfg.suggestionConfigurationName) && NoNewline(cfg.buildFile)
    requires forall a :: a in used ==> (a.Project? ==> NoNewline(a.path)) && (a.External? ==> NoNewline(a.group) && NoNewline(a.name))
    ensures Report(used, cfg).Failure?
    ensures SplitLines(Report(used, cfg).message) ==
      [Headline(|used|, cfg.buildFile), "    dependencies {"] + Report(used, cfg).suggestions + ["    }"]
    ensures DigitsValue(DecimalString(Report(used, cfg).count)) == |used|
  {
    var r := Report(used, cfg);
    var head := Headline(|used|, cfg.buildFile);
    SuggestionsHaveNoNewline(used, cfg);
    HeadlineHasNoNewline(|used|, cfg.buildFile);
    var block := SuggestionBlock(r.suggestions);
    assert r.message == head + "\n" + block;
    SplitLinesAtNewline(head, block);
    SplitLinesSingle(head);
    SuggestionBlockLines(r.suggestions);
    assert SplitLines(r.message) == [head] + (["    dependencies {"] + r.suggestions + ["    }"]);
    DecimalStringRoundTrip(|used|);
  }
}
