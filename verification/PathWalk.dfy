/** `is_valid_path`: whether a path stays below its root, read component by component against a walk with a stack of
    names. */
module PathWalk {
  import opened Text
  import opened Wrappers

  /** The parts between slashes; slashes in a row count as one. */
  function Components(path: string): seq<string>
    decreases |path|
  {
    var n := SegmentLength(path, '/');
    (if n == 0 then [] else [path[..n]]) + if n < |path| then Components(path[n + 1..]) else []
  }

  /** The directory a walk leads to, as the list of names from the root; None when it leaves the root. */
  function Walk(components: seq<string>, at: seq<string>): Option<seq<string>> {
    if components == [] then Some(at)
    else if components[0] == "." then Walk(components[1..], at)
    else if components[0] == ".." then if at == [] then None else Walk(components[1..], at[..|at| - 1])
    else Walk(components[1..], at + [components[0]])
  }

  /** How deep a walk ends below where it began, if it never left the root. */
  function Depth(components: seq<string>): int {
    if components == [] then 0
    else
      var last := components[|components| - 1];
      Depth(components[..|components| - 1]) + if last == "." then 0 else if last == ".." then -1 else 1
  }

  lemma {:induction false} DepthOfFirst(components: seq<string>)
    requires components != []
    ensures Depth(components) == Depth([components[0]]) + Depth(components[1..])
  {
    var n := |components| - 1;
    if n > 0 {
      DepthOfFirst(components[..n]);
      assert components[..n][1..] == components[1..][..n - 1];
    }
  }

  /** The walk stays below the root exactly when no prefix of it has more steps up than steps down. */
  lemma {:induction false} WalkStays(components: seq<string>, at: seq<string>)
    ensures Walk(components, at).Some? <==> forall k :: 0 <= k <= |components| ==> |at| + Depth(components[..k]) >= 0
    decreases |components|
  {
    if components != [] {
      var first, others := components[0], components[1..];
      assert [first][..0] == [];
      var d := Depth([first]);
      forall k | 0 <= k <= |components|
        ensures Depth(components[..k]) == if k == 0 then 0 else d + Depth(others[..k - 1])
      {
        if k > 0 {
          DepthOfFirst(components[..k]);
          assert components[..k][1..] == others[..k - 1];
        }
      }
      assert forall k :: 0 <= k <= |others| ==> Depth(components[..k + 1]) == d + Depth(others[..k]);
      assert Depth(components[..1]) == d + Depth(others[..0]) == d;
      if first == "." {
        WalkStays(others, at);
      } else if first != ".." {
        WalkStays(others, at + [first]);
      } else if at != [] {
        WalkStays(others, at[..|at| - 1]);
      }
    }
  }

  lemma SkipsSlash(path: string, i: nat)
    requires i < |path| && path[i] == '/'
    ensures Components(path[i..]) == Components(path[i + 1..])
  {
    assert path[i..][1..] == path[i + 1..];
  }

  lemma ComponentBefore(x: string, rest: string)
    requires x != "" && '/' !in x
    ensures Components(x + ['/'] + rest) == [x] + Components(rest)
  {
    SegmentIs(x, '/', rest);
    CutAt(x, rest);
  }

  lemma LastComponent(x: string)
    requires x != "" && '/' !in x
    ensures Components(x) == [x]
  {
    SegmentIs(x, '/', "");
    assert x[..|x|] == x;
  }

  lemma CutAt(x: string, rest: string)
    ensures (x + ['/'] + rest)[..|x|] == x && (x + ['/'] + rest)[|x| + 1..] == rest
  {
  }

  lemma ReadsComponent(path: string, beg: nat, i: nat)
    requires beg < i <= |path| && '/' !in path[beg..i] && (i < |path| ==> path[i] == '/')
    ensures Components(path[beg..]) == [path[beg..i]] + Components(path[i..])
  {
    CutAround(path, beg, i);
    if i < |path| {
      ComponentBefore(path[beg..i], path[i + 1..]);
      SkipsSlash(path, i);
    } else {
      LastComponent(path[beg..i]);
    }
  }

  predicate AllSlashes(s: string) { forall i :: 0 <= i < |s| ==> s[i] == '/' }

  lemma {:induction false} SlashesSkipped(slashes: string, rest: string)
    requires AllSlashes(slashes)
    ensures Components(slashes + rest) == Components(rest)
  {
    if slashes == "" {
      assert slashes + rest == rest;
    } else {
      SkipsSlash(slashes + rest, 0);
      assert (slashes + rest)[0..] == slashes + rest && (slashes + rest)[1..] == slashes[1..] + rest;
      SlashesSkipped(slashes[1..], rest);
    }
  }

  /** Names, each with at least one slash behind it, but for the last. */
  datatype Step = Step(name: string, slashes: string)

  predicate IsStep(s: Step, last: bool) {
    s.name != "" && '/' !in s.name && AllSlashes(s.slashes) && (last || s.slashes != "")
  }

  predicate AreSteps(steps: seq<Step>) {
    steps != [] ==> IsStep(steps[0], |steps| == 1) && AreSteps(steps[1..])
  }

  function StepsText(steps: seq<Step>): string {
    if steps == [] then "" else steps[0].name + (steps[0].slashes + StepsText(steps[1..]))
  }

  function Names(steps: seq<Step>): seq<string> {
    if steps == [] then [] else [steps[0].name] + Names(steps[1..])
  }

  /** The components of a path are the names in it, however many slashes there are between them. */
  lemma {:induction false} ComponentsAreNames(slashes: string, steps: seq<Step>)
    requires AllSlashes(slashes) && AreSteps(steps)
    ensures Components(slashes + StepsText(steps)) == Names(steps)
    decreases |steps|
  {
    SlashesSkipped(slashes, StepsText(steps));
    if steps != [] {
      var name, later := steps[0].name, steps[0].slashes + StepsText(steps[1..]);
      ComponentsAreNames(steps[0].slashes, steps[1..]);
      if later == "" {
        LastComponent(name);
        assert name + later == name;
      } else {
        assert later[0] == '/' by { assert steps[0].slashes == "" ==> steps[1..] == []; }
        assert later == "/" + later[1..] && name + later == name + ['/'] + later[1..];
        ComponentBefore(name, later[1..]);
        SkipsSlash(later, 0);
        assert later[0..] == later;
      }
    }
  }

  /** `is_valid_path`. Both inner loops end, as they move the index. */
  method IsValidPath(path: string) returns (valid: bool)
    ensures valid <==> Walk(Components(path), []).Some?
  {
    var level: nat, i := 0, 0;
    ghost var at: seq<string> := [];
    assert path[0..] == path;
    i := SkipSlashes(path, i);
    while i < |path|
      invariant i <= |path| && (i < |path| ==> path[i] != '/') && level == |at|
      invariant Walk(Components(path), []) == Walk(Components(path[i..]), at)
      decreases |path| - i
    {
      var beg := i;
      i := ReadComponent(path, beg);
      ReadsComponent(path, beg, i);
      var component := path[beg..i];
      if component == "." {
      } else if component == ".." {
        if level == 0 { return false; }
        level := level - 1;
        at := at[..|at| - 1];
      } else {
        level := level + 1;
        at := at + [component];
      }
      i := SkipSlashes(path, i);
    }
    return true;
  }

  method SkipSlashes(path: string, from: nat) returns (i: nat)
    requires from <= |path|
    ensures from <= i <= |path| && (i < |path| ==> path[i] != '/')
    ensures Components(path[i..]) == Components(path[from..])
  {
    i := from;
    ghost var components := Components(path[from..]);
    while i < |path| && path[i] == '/'
      invariant from <= i <= |path| && Components(path[i..]) == components
    {
      SkipsSlash(path, i);
      i := i + 1;
    }
  }

  method ReadComponent(path: string, beg: nat) returns (i: nat)
    requires beg < |path| && path[beg] != '/'
    ensures beg < i <= |path| && '/' !in path[beg..i] && (i < |path| ==> path[i] == '/')
  {
    i := beg;
    while i < |path| && path[i] != '/'
      invariant beg <= i <= |path| && '/' !in path[beg..i]
    {
      assert path[beg..i + 1] == path[beg..i] + [path[i]];
      i := i + 1;
    }
  }
}
