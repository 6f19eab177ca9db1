/**
 * Resolved artifacts as the check sees them: an external module jar or the
 * output of a project of the same build, each with the display name of its
 * identifier; the comparator on display names; the deterministic choice of
 * one artifact per candidate list; and the suggestion line for an artifact.
 */
module Artifacts {
  import opened Wrappers
  import opened Lexicographic

  datatype Artifact =
    | External(group: string, name: string, displayName: string)
    | Project(path: string, displayName: string)

  /** The key of ARTIFACT_COMPARATOR: the display name of the artifact's identifier. */
  function DisplayName(a: Artifact): string {
    a.displayName
  }

  /** The artifact's component is a project of this build rather than an external module. */
  predicate IsProjectArtifact(a: Artifact) {
    a.Project?
  }

  /** The artifact is produced by the project whose path is currentPath. */
  predicate IsArtifactFromCurrentProject(a: Artifact, currentPath: string) {
    IsProjectArtifact(a) && a.path == currentPath
  }

  /**
   * Position of the element that Stream.min(ARTIFACT_COMPARATOR) returns: the
   * stream is reduced from the left keeping the accumulated element whenever
   * it compares <= 0 to the next one, so the result is the FIRST element whose
   * display name is lowest.
   */
  function MinIndex(l: seq<Artifact>): (k: nat)
    requires |l| > 0
    ensures k < |l|
    ensures forall j :: 0 <= j < |l| ==> LessEq(l[k].displayName, l[j].displayName)
    ensures forall j :: 0 <= j < k ==> !LessEq(l[j].displayName, l[k].displayName)
    decreases |l|
  {
    if |l| == 1 then
      Reflexive(l[0].displayName);
      0
    else
      var n := |l| - 1;
      var k := MinIndex(l[..n]);
      assert forall j :: 0 <= j < n ==> l[..n][j] == l[j];
      if LessEq(l[k].displayName, l[n].displayName) then
        k
      else
        Total(l[k].displayName, l[n].displayName);
        assert forall j :: 0 <= j < |l| ==> LessEq(l[n].displayName, l[j].displayName) by {
          forall j | 0 <= j < |l|
            ensures LessEq(l[n].displayName, l[j].displayName)
          {
            if j < n {
              Transitive(l[n].displayName, l[k].displayName, l[j].displayName);
            } else {
              Reflexive(l[n].displayName);
            }
          }
        }
        assert forall j :: 0 <= j < n ==> !LessEq(l[j].displayName, l[n].displayName) by {
          forall j | 0 <= j < n && LessEq(l[j].displayName, l[n].displayName)
            ensures false
          {
            Transitive(l[k].displayName, l[j].displayName, l[n].displayName);
          }
        }
        n
  }

  /** Stream.min(ARTIFACT_COMPARATOR): empty for an empty list, otherwise a member of lowest display name. */
  function MinByDisplayName(l: seq<Artifact>): (r: Option<Artifact>)
    ensures r.None? <==> l == []
    ensures r.Some? ==> r.value in l
    ensures r.Some? ==> forall b :: b in l ==> LessEq(r.value.displayName, b.displayName)
  {
    if l == [] then None else Some(l[MinIndex(l)])
  }

  /** getSuggestionString: eight spaces, the configuration name, a space and the dependency notation. */
  function SuggestionLine(a: Artifact, configurationName: string): string {
    "        " + configurationName + " " + DependencyNotation(a)
  }

  function DependencyNotation(a: Artifact): string {
    match a
    case Project(path, _) => "project('" + path + "')"
    case External(group, name, _) => "'" + group + ":" + name + "'"
  }

  /** The notation is the project form exactly for project artifacts; it starts with 'p' for those and with a quote otherwise. */
  lemma SuggestionLineShape(a: Artifact, configurationName: string)
    ensures var prefix := "        " + configurationName + " ";
      var line := SuggestionLine(a, configurationName);
      && |line| > |prefix|
      && line[..|prefix|] == prefix
      && line[|prefix|] == (if IsProjectArtifact(a) then 'p' else '\'')
  {
    var prefix := "        " + configurationName + " ";
    var line := SuggestionLine(a, configurationName);
    assert line == prefix + DependencyNotation(a);
    assert line[|prefix|] == DependencyNotation(a)[0];
  }

  /** Lines for artifacts of different kinds never coincide. */
  lemma {:induction false} SuggestionLinesDistinguishKinds(a: Artifact, b: Artifact, configurationName: string)
    requires IsProjectArtifact(a) && !IsProjectArtifact(b)
    ensures SuggestionLine(a, configurationName) != SuggestionLine(b, configurationName)
  {
    SuggestionLineShape(a, configurationName);
    SuggestionLineShape(b, configurationName);
  }

  /** Two project artifacts get the same line exactly when they have the same project path. */
  lemma {:induction false} ProjectLinesIdentifyPath(a: Artifact, b: Artifact, configurationName: string)
    requires a.Project? && b.Project?
    ensures SuggestionLine(a, configurationName) == SuggestionLine(b, configurationName) <==> a.path == b.path
  {
    var opening := "        " + configurationName + " " + "project('";
    var la, lb := SuggestionLine(a, configurationName), SuggestionLine(b, configurationName);
    assert la == opening + a.path + "')";
    assert lb == opening + b.path + "')";
    assert a.path == la[|opening|..|la| - 2];
    assert b.path == lb[|opening|..|lb| - 2];
  }

  /** Two external artifacts get the same line exactly when they have the same group:name coordinate. */
  lemma {:induction false} ExternalLinesIdentifyCoordinate(a: Artifact, b: Artifact, configurationName: string)
    requires a.External? && b.External?
    ensures SuggestionLine(a, configurationName) == SuggestionLine(b, configurationName)
      <==> a.group + ":" + a.name == b.group + ":" + b.name
  {
    var opening := "        " + configurationName + " " + "'";
    var ca, cb := a.group + ":" + a.name, b.group + ":" + b.name;
    var la, lb := SuggestionLine(a, configurationName), SuggestionLine(b, configurationName);
    assert la == opening + ca + "'";
    assert lb == opening + cb + "'";
    assert ca == la[|opening|..|la| - 1];
    assert cb == lb[|opening|..|lb| - 1];
  }

  /** A suggestion line holds no line break when the names it is built from hold none. */
  lemma SuggestionLineHasNoNewline(a: Artifact, configurationName: string)
    requires '\n' !in configurationName
    requires a.Project? ==> '\n' !in a.path
    requires a.External? ==> '\n' !in a.group && '\n' !in a.name
    ensures '\n' !in SuggestionLine(a, configurationName)
  {
  }
}
