/**
 * Concrete runs of the check: the tie-break between two candidates, an
 * undeclared library, the same library ignored, a class provided only by the
 * current project, and an artifact reported twice.
 */
module Scenarios {
  import opened Wrappers
  import opened Artifacts
  import opened ImplicitDependencies

  /** A sequence of one or two elements all equal to x is that many copies of x. */
  lemma Copies<T>(s: seq<T>, x: T)
    requires 1 <= |s| <= 2 && forall i :: 0 <= i < |s| ==> s[i] == x
    ensures |s| == 1 ==> s == [x]
    ensures |s| == 2 ==> s == [x, x]
  {
  }

  /** An ignore identity of the form group:name; a project is identified by its path. */
  function CoordinateKey(a: Artifact): string {
    match a
    case External(group, name, _) => group + ":" + name
    case Project(path, _) => path
  }

  function ConfigWith(ignore: set<string>): Config {
    Config(ignore, CoordinateKey, ":app", "implementation", "app/build.gradle")
  }

  const LibFoo := External("com.example", "libfoo", "libfoo:1.0")
  const LibBaz := External("com.example", "libbaz", "libbaz:2.0")

  function ExampleIndex(): map<string, seq<Artifact>> {
    map["com.foo.Bar" := [LibFoo], "com.baz.Qux" := [LibBaz]]
  }

  /** Of two candidates "b:1.0" and "a:1.0", the one with the lower display name is chosen. */
  lemma TieBreak()
    ensures var a := External("org.a", "a", "a:1.0");
      var b := External("org.b", "b", "b:1.0");
      MinByDisplayName([b, a]) == Some(a)
  {
    var a := External("org.a", "a", "a:1.0");
    var b := External("org.b", "b", "b:1.0");
    assert !Lexicographic.LessEq(b.displayName, a.displayName);
  }

  lemma ExampleCandidateLists()
    ensures CandidateLists({"com.foo.Bar", "com.baz.Qux"}, ExampleIndex()) == {[LibFoo], [LibBaz]}
  {
    var index := ExampleIndex();
    assert ClassToArtifacts(index, "com.foo.Bar") == [LibFoo];
    assert ClassToArtifacts(index, "com.baz.Qux") == [LibBaz];
  }

  lemma SingletonMinimum(a: Artifact)
    ensures MinByDisplayName([a]) == Some(a)
  {
  }

  lemma LibFooLine()
    ensures SuggestionLine(LibFoo, "implementation") == "        implementation 'com.example:libfoo'"
  {
  }

  lemma ExampleContributing()
    ensures Contributing(CandidateLists({"com.foo.Bar", "com.baz.Qux"}, ExampleIndex()), {LibBaz}, ConfigWith({})) == {[LibFoo]}
  {
    var cfg := ConfigWith({});
    ExampleCandidateLists();
    assert LibFoo != LibBaz;
    assert !Survives([LibBaz], {LibBaz}, cfg) by {
      assert LibBaz in [LibBaz];
    }
    assert Survives([LibFoo], {LibBaz}, cfg);
  }

  /** With libbaz declared, only the list of libfoo contributes, so the failure counts one libfoo line. */
  lemma UndeclaredSuggested()
    ensures var r := CheckImplicitDependencies({"com.foo.Bar", "com.baz.Qux"}, ExampleIndex(), {LibBaz}, ConfigWith({}));
      && r.Failure?
      && r.count == |r.suggestions| == 1
      && forall i :: 0 <= i < |r.suggestions| ==> r.suggestions[i] == SuggestionLine(LibFoo, "implementation")
  {
    var cfg := ConfigWith({});
    var lists := {[LibFoo]};
    assert Contributing(CandidateLists({"com.foo.Bar", "com.baz.Qux"}, ExampleIndex()), {LibBaz}, cfg) == lists && |lists| == 1 by {
      ExampleContributing();
    }
    forall l | l in lists
      ensures MinByDisplayName(l) == Some(LibFoo)
    {
      assert l == [LibFoo];
      SingletonMinimum(LibFoo);
    }
    SharedRepresentative({"com.foo.Bar", "com.baz.Qux"}, ExampleIndex(), {LibBaz}, cfg, lists, LibFoo);
  }

  /** One class is served by a declared library, the other by an undeclared one: only the latter is reported. */
  lemma UndeclaredLibraryReported()
    ensures var r := CheckImplicitDependencies({"com.foo.Bar", "com.baz.Qux"}, ExampleIndex(), {LibBaz}, ConfigWith({}));
      && r.Failure?
      && r.count == 1
      && r.suggestions == ["        implementation 'com.example:libfoo'"]
  {
    UndeclaredSuggested();
    LibFooLine();
    var r := CheckImplicitDependencies({"com.foo.Bar", "com.baz.Qux"}, ExampleIndex(), {LibBaz}, ConfigWith({}));
    Copies(r.suggestions, SuggestionLine(LibFoo, "implementation"));
  }

  /** The same run with the library's identity ignored succeeds. */
  lemma IgnoredLibrarySucceeds()
    ensures CheckImplicitDependencies({"com.foo.Bar", "com.baz.Qux"}, ExampleIndex(), {LibBaz},
      ConfigWith({"com.example:libfoo"})).Success?
  {
    var cfg := ConfigWith({"com.example:libfoo"});
    var referenced := {"com.foo.Bar", "com.baz.Qux"};
    ExampleCandidateLists();
    assert !Survives([LibFoo], {LibBaz}, cfg) by {
      assert CoordinateKey(LibFoo) == "com.example:libfoo";
      assert LibFoo in [LibFoo] && ShouldIgnore(LibFoo, cfg);
    }
    assert !Survives([LibBaz], {LibBaz}, cfg) by {
      assert LibBaz in [LibBaz];
    }
    assert Contributing(CandidateLists(referenced, ExampleIndex()), {LibBaz}, cfg) == {};
  }

  /** A class provided only by the current project's own output never fails the check, whatever is declared. */
  lemma SelfProvidedClassSucceeds(declared: set<Artifact>)
    ensures var own := Project(":app", "project :app");
      CheckImplicitDependencies({"com.foo.Bar"}, map["com.foo.Bar" := [own]], declared, ConfigWith({})).Success?
  {
    var own := Project(":app", "project :app");
    var index := map["com.foo.Bar" := [own]];
    assert ClassToArtifacts(index, "com.foo.Bar") == [own];
    assert CandidateLists({"com.foo.Bar"}, index) == {[own]};
    assert !Survives([own], declared, ConfigWith({})) by {
      assert own in [own] && IsArtifactFromCurrentProject(own, ConfigWith({}).projectPath);
    }
    assert Contributing(CandidateLists({"com.foo.Bar"}, index), declared, ConfigWith({})) == {};
  }

  function TwiceIndex(): map<string, seq<Artifact>> {
    map["com.foo.A" := [LibBaz], "com.foo.B" := [LibBaz, LibFoo]]
  }

  lemma TwiceContributing()
    ensures Contributing(CandidateLists({"com.foo.A", "com.foo.B"}, TwiceIndex()), {}, ConfigWith({}))
      == {[LibBaz], [LibBaz, LibFoo]}
    ensures |{[LibBaz], [LibBaz, LibFoo]}| == 2
  {
    assert [LibBaz] != [LibBaz, LibFoo];
    var cfg := ConfigWith({});
    var index := TwiceIndex();
    assert ClassToArtifacts(index, "com.foo.A") == [LibBaz];
    assert ClassToArtifacts(index, "com.foo.B") == [LibBaz, LibFoo];
    assert CandidateLists({"com.foo.A", "com.foo.B"}, index) == {[LibBaz], [LibBaz, LibFoo]};
    assert Survives([LibBaz], {}, cfg) && Survives([LibBaz, LibFoo], {}, cfg);
  }

  lemma PairMinimum()
    ensures MinByDisplayName([LibBaz, LibFoo]) == Some(LibBaz)
  {
    assert Lexicographic.LessEq(LibBaz.displayName, LibFoo.displayName);
  }

  /** Both candidate lists contribute LibBaz, so the failure counts two and every suggestion names it. */
  lemma TwiceSuggested()
    ensures var r := CheckImplicitDependencies({"com.foo.A", "com.foo.B"}, TwiceIndex(), {}, ConfigWith({}));
      && r.Failure?
      && r.count == |r.suggestions| == 2
      && forall i :: 0 <= i < |r.suggestions| ==> r.suggestions[i] == SuggestionLine(LibBaz, "implementation")
  {
    var cfg := ConfigWith({});
    var lists := {[LibBaz], [LibBaz, LibFoo]};
    assert Contributing(CandidateLists({"com.foo.A", "com.foo.B"}, TwiceIndex()), {}, cfg) == lists && |lists| == 2 by {
      TwiceContributing();
    }
    forall l | l in lists
      ensures MinByDisplayName(l) == Some(LibBaz)
    {
      assert l == [LibBaz] || l == [LibBaz, LibFoo];
      SingletonMinimum(LibBaz);
      PairMinimum();
    }
    SharedRepresentative({"com.foo.A", "com.foo.B"}, TwiceIndex(), {}, cfg, lists, LibBaz);
  }

  /**
   * Two distinct candidate lists with the same minimum each contribute it: the
   * artifact is counted and suggested twice.
   */
  lemma SameArtifactReportedTwice()
    ensures var r := CheckImplicitDependencies({"com.foo.A", "com.foo.B"}, TwiceIndex(), {}, ConfigWith({}));
      && r.Failure?
      && r.count == 2
      && r.suggestions == [SuggestionLine(LibBaz, "implementation"), SuggestionLine(LibBaz, "implementation")]
  {
    TwiceSuggested();
    var r := CheckImplicitDependencies({"com.foo.A", "com.foo.B"}, TwiceIndex(), {}, ConfigWith({}));
    Copies(r.suggestions, SuggestionLine(LibBaz, "implementation"));
  }
}
