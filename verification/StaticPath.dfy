/**
 Path resolution of the static file server (src/static_files.rs, safe_path). The input is
 the decoded URL path as a list of components; a path is the list of its parts, and `root`
 is the configured directory.
 */
module StaticPath {
  import opened Prelude

  datatype Component =
    | Normal(name: string)
    | ParentDir
    | RootDir
    | CurDir
    | Prefix

  type Path = seq<string>

  /** The effect of one component on the path built so far; `None` is a refusal. */
  function Step(path: Path, c: Component): Option<Path> {
    match c
    case Normal(name) => Some(path + [name])
    case ParentDir => if path == [] then None else Some(path[..|path| - 1])
    case RootDir => Some(path)
    case CurDir => Some(path)
    case Prefix => None
  }

  function Resolve(root: Path, comps: seq<Component>): Option<Path> {
    if comps == [] then Some(root)
    else
      match Resolve(root, comps[..|comps| - 1])
      case None => None
      case Some(path) => Step(path, comps[|comps| - 1])
  }

  function Accepted(root: Path, comps: seq<Component>): Option<Path> {
    match Resolve(root, comps)
    case None => None
    case Some(path) => if root <= path then Some(path) else None
  }

  lemma {:induction false} RefusalIsFinal(root: Path, comps: seq<Component>, k: nat)
    requires k <= |comps| && Resolve(root, comps[..k]).None?
    ensures Resolve(root, comps).None?
  {
    if k < |comps| {
      assert comps[..|comps| - 1][..k] == comps[..k];
      RefusalIsFinal(root, comps[..|comps| - 1], k);
    } else {
      assert comps[..k] == comps;
    }
  }

  method SafePath(root: Path, comps: seq<Component>) returns (path: Option<Path>)
    ensures path == Accepted(root, comps)
  {
    var result := root;
    for i := 0 to |comps|
      invariant Resolve(root, comps[..i]) == Some(result)
    {
      assert comps[..i + 1][..i] == comps[..i];
      match comps[i] {
        case Normal(name) =>
          result := result + [name];
        case ParentDir =>
          if result == [] {
            RefusalIsFinal(root, comps, i + 1);
            return None;
          }
          result := result[..|result| - 1];
        case RootDir =>
        case CurDir =>
        case Prefix =>
          RefusalIsFinal(root, comps, i + 1);
          return None;
      }
    }
    assert comps[..|comps|] == comps;
    if !(root <= result) {
      return None;
    }
    return Some(result);
  }

  // ---------------------------------------------------------------------------------
  // The lexical normal form
  // ---------------------------------------------------------------------------------

  /** A path relative to anywhere: climb `ups` times, then descend along `names`. */
  datatype Lexical = Lexical(ups: nat, names: seq<string>)

  function Normalise(comps: seq<Component>): Lexical {
    if comps == [] then Lexical(0, [])
    else
      var before := Normalise(comps[..|comps| - 1]);
      match comps[|comps| - 1]
      case Normal(name) => before.(names := before.names + [name])
      case ParentDir =>
        if before.names == [] then before.(ups := before.ups + 1)
        else before.(names := before.names[..|before.names| - 1])
      case _ => before
  }

  /** By how much the `..` components outnumber the names. */
  function Climb(comps: seq<Component>): int {
    if comps == [] then 0
    else Climb(comps[..|comps| - 1]) + match comps[|comps| - 1] case Normal(_) => -1 case ParentDir => 1 case _ => 0
  }

  ghost predicate IsHighestClimb(comps: seq<Component>, ups: int) {
    && (forall k | 0 <= k <= |comps| :: Climb(comps[..k]) <= ups)
    && (exists k | 0 <= k <= |comps| :: Climb(comps[..k]) == ups)
  }

  lemma HighestClimbAppend(comps: seq<Component>, c: Component, ups: int)
    requires IsHighestClimb(comps, ups)
    ensures var now := Climb(comps + [c]); IsHighestClimb(comps + [c], if now > ups then now else ups)
  {
    var longer := comps + [c];
    forall k | 0 <= k <= |comps|
      ensures longer[..k] == comps[..k]
    {}
    assert longer[..|longer|] == longer;
    var k :| 0 <= k <= |comps| && Climb(comps[..k]) == ups;
    assert Climb(longer[..k]) == ups && Climb(longer[..|longer|]) == Climb(longer);
  }

  /** `ups` is how far the walk ever climbs above its start, and the names make up the rest of the balance. */
  lemma {:induction false} UpsIsHighestClimb(comps: seq<Component>)
    ensures IsHighestClimb(comps, Normalise(comps).ups)
    ensures |Normalise(comps).names| == Normalise(comps).ups - Climb(comps)
  {
    if comps == [] {
      assert Climb(comps[..0]) == 0;
    } else {
      var n := |comps| - 1;
      UpsIsHighestClimb(comps[..n]);
      HighestClimbAppend(comps[..n], comps[n], Normalise(comps[..n]).ups);
      assert comps[..n] + [comps[n]] == comps;
    }
  }

  ghost predicate HasPrefix(comps: seq<Component>) {
    exists k | 0 <= k < |comps| :: comps[k].Prefix?
  }

  /** Climbing eats the root from its end; what was pushed after the highest climb remains. */
  lemma {:induction false} ResolveByNormalForm(root: Path, comps: seq<Component>)
    ensures var l := Normalise(comps);
            Resolve(root, comps)
            == if HasPrefix(comps) || l.ups > |root| then None else Some(root[..|root| - l.ups] + l.names)
  {
    if comps != [] {
      var n := |comps| - 1;
      ResolveByNormalForm(root, comps[..n]);
      assert HasPrefix(comps) <==> HasPrefix(comps[..n]) || comps[n].Prefix?;
      var l := Normalise(comps[..n]);
      if l.ups <= |root| && comps[n].ParentDir? {
        var path := root[..|root| - l.ups] + l.names;
        if l.names != [] {
          assert path[..|path| - 1] == root[..|root| - l.ups] + l.names[..|l.names| - 1];
        } else if l.ups < |root| {
          assert path[..|path| - 1] == root[..|root| - (l.ups + 1)] + [];
        }
      } else if l.ups <= |root| && comps[n].Normal? {
        var kept, name := root[..|root| - l.ups], comps[n].name;
        assert kept + l.names + [name] == kept + (l.names + [name]);
      }
    } else {
      assert root[..|root|] + [] == root;
    }
  }

  lemma PrefixBehind(p: Path, r: Path, q: Path)
    ensures p + r <= p + q <==> r <= q
  {
    if r <= q {
      assert p + q == p + r + q[|r|..];
    }
    if p + r <= p + q {
      assert r == (p + r)[|p|..] && (p + q)[|p|..|p| + |r|] == q[..|r|];
    }
  }

  /**
   Exactly which paths are accepted, and where they lead: those that never climb above the
   filesystem root and come back down, after their highest climb, through the very names
   of the root directory that they had left.
   */
  lemma AcceptedIff(root: Path, comps: seq<Component>)
    ensures var l := Normalise(comps);
            var back := !HasPrefix(comps) && l.ups <= |root| && root[|root| - l.ups..] <= l.names;
            Accepted(root, comps) == if back then Some(root + l.names[l.ups..]) else None
  {
    ResolveByNormalForm(root, comps);
    var l := Normalise(comps);
    if !HasPrefix(comps) && l.ups <= |root| {
      var kept, path := |root| - l.ups, root[..|root| - l.ups] + l.names;
      assert root == root[..kept] + root[kept..];
      PrefixBehind(root[..kept], root[kept..], l.names);
      if root[kept..] <= l.names {
        assert path == root + l.names[l.ups..];
      }
    }
  }

  /** A path that never climbs above its start is the root followed by its normal form. */
  lemma DescendingPathIsNormalForm(root: Path, comps: seq<Component>)
    requires !HasPrefix(comps) && forall k | 0 <= k <= |comps| :: Climb(comps[..k]) <= 0
    ensures Accepted(root, comps) == Some(root + Normalise(comps).names)
  {
    UpsIsHighestClimb(comps);
    AcceptedIff(root, comps);
    var k :| 0 <= k <= |comps| && Climb(comps[..k]) == Normalise(comps).ups;
    assert Normalise(comps).ups == 0;
    assert root[|root|..] == [];
  }

  function Names(names: seq<string>): seq<Component> {
    seq(|names|, i requires 0 <= i < |names| => Normal(names[i]))
  }

  lemma {:induction false} PlainNamesAreNormal(names: seq<string>)
    ensures Normalise(Names(names)) == Lexical(0, names) && !HasPrefix(Names(names))
  {
    if names != [] {
      var n := |names| - 1;
      PlainNamesAreNormal(names[..n]);
      assert Names(names)[..n] == Names(names[..n]);
      assert names[..n] + [names[n]] == names;
    }
  }

  /** Every file below the root can be named: resolving an accepted path's own names again leads to the same file. */
  lemma AcceptedPathsAreFixed(root: Path, comps: seq<Component>)
    requires Accepted(root, comps).Some?
    ensures var path := Accepted(root, comps).value;
            Accepted(root, Names(path[|root|..])) == Some(path)
  {
    var path := Accepted(root, comps).value;
    PlainNamesAreNormal(path[|root|..]);
    AcceptedIff(root, Names(path[|root|..]));
    assert root[|root|..] == [] && path == root + path[|root|..];
  }

  /**
   The change log says that all `..` components are rejected. They are not: one that stays
   inside is resolved, and one that leaves the root and re-enters it by name is accepted.
   */
  lemma ParentComponentsAreAccepted(root: Path, a: string, b: string)
    ensures Accepted(root, [Normal(a), ParentDir, Normal(b)]) == Some(root + [b])
    ensures root != [] ==> Accepted(root, [ParentDir, Normal(root[|root| - 1]), Normal(b)]) == Some(root + [b])
  {
    ResolveThree(root, Normal(a), ParentDir, Normal(b));
    assert (root + [a])[..|root|] == root;
    if root != [] {
      var n := |root| - 1;
      ResolveThree(root, ParentDir, Normal(root[n]), Normal(b));
      assert root[..n] + [root[n]] == root;
    }
  }

  lemma ResolveThree(root: Path, a: Component, b: Component, c: Component)
    ensures Resolve(root, [a, b, c])
         == match Step(root, a)
            case None => None
            case Some(p) => match Step(p, b) case None => None case Some(q) => Step(q, c)
  {
    assert [a, b, c][..2] == [a, b] && [a, b][..1] == [a] && [a][..0] == [];
    assert Resolve(root, [a]) == Step(root, a);
    assert Resolve(root, [a, b]) == match Step(root, a) case None => None case Some(p) => Step(p, b);
  }
}
