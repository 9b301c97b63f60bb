/** Which installed package a dependency resolves to: a walk over the path of the dependent
    that cuts it at its last "/node_modules/", and the walk over package names it stands
    for. */
module NodeModules {
  import opened Prelude
  import opened Strings

  const SEP := "/node_modules/"
  const ROOT := "node_modules/"

  /******* The walk over strings *******/

  // What is left of a location when its innermost package is taken off.
  function Enclosing(location: string): string {
    var boundary := RFind(location, SEP);
    if 0 <= boundary <= |location| then location[..boundary] else ""
  }

  lemma EnclosingIsShorter(location: string)
    requires location != ""
    ensures |Enclosing(location)| < |location|
  {
    RFindMeans(location, SEP);
  }

  function Walk(keys: set<string>, location: string, dep: string): Option<string>
    decreases |location|
  {
    if location == "" then
      if ROOT + dep in keys then Some(ROOT + dep) else None
    else if location + SEP + dep in keys then Some(location + SEP + dep)
    else
      EnclosingIsShorter(location);
      Walk(keys, Enclosing(location), dep)
  }

  // The loop of the audit.
  method Resolve(keys: set<string>, path: string, dep: string) returns (resolved: Option<string>)
    ensures resolved == Walk(keys, path, dep)
  {
    var location := path;
    resolved := None;
    while location != ""
      invariant resolved.None?
      invariant Walk(keys, location, dep) == Walk(keys, path, dep)
      decreases |location|
    {
      var nested := location + SEP + dep;
      if nested in keys {
        resolved := Some(nested);
        break;
      }
      var boundary := RFind(location, SEP);
      RFindMeans(location, SEP);
      EnclosingIsShorter(location);
      location := if boundary >= 0 then location[..boundary] else "";
    }
    if resolved.None? {
      if ROOT + dep in keys {
        resolved := Some(ROOT + dep);
      }
    }
  }

  /******* The walk over names *******/

  // The path of a package inside others, outermost first, below a directory of the
  // repository ("" for its root).
  function Path(base: string, names: seq<string>): string {
    if names == [] then base
    else
      var n := |names| - 1;
      var outer := Path(base, names[..n]);
      (if outer == "" then ROOT else outer + SEP) + names[n]
  }

  function ListWalk(keys: set<string>, base: string, names: seq<string>, dep: string): Option<string>
    decreases |names|
  {
    if Path(base, names + [dep]) in keys then Some(Path(base, names + [dep]))
    else if names != [] then ListWalk(keys, base, names[..|names| - 1], dep)
    else if ROOT + dep in keys then Some(ROOT + dep)
    else None
  }

  predicate PlainName(name: string) {
    !Contains("/" + name, SEP)
  }

  // Cutting the directory itself leads nowhere but to the root.
  predicate PlainBase(base: string) {
    RFind(base, SEP) <= 0
  }

  predicate AllPlain(names: seq<string>) {
    forall i :: 0 <= i < |names| ==> PlainName(names[i])
  }

  /******* Cutting a path takes off one name *******/

  lemma PathOfMore(base: string, names: seq<string>, name: string)
    ensures Path(base, names + [name]) == (if Path(base, names) == "" then ROOT else Path(base, names) + SEP) + name
  {
    assert (names + [name])[..|names|] == names;
  }

  // The separator overlaps itself at its two slashes only.
  lemma OccursAfter(outer: string, name: string, i: nat)
    requires |outer| < i
    ensures OccursAt(outer + SEP + name, SEP, i) <==> i >= |outer| + 13 && OccursAt("/" + name, SEP, i - |outer| - 13)
  {
    var s, t := outer + SEP + name, "/" + name;
    assert SEP[0] == '/' && forall k :: 0 < k < 13 ==> SEP[k] != '/';
    assert s[|outer|..|outer| + 14] == SEP;
    assert forall k :: 0 <= k < 14 ==> s[|outer| + k] == SEP[k];
    if i < |outer| + 13 {
      assert i + 14 <= |s| ==> s[i..i + 14][0] == s[i] != SEP[0];
    } else {
      assert s[|outer| + 13..] == t;
      if i + 14 <= |s| {
        assert s[i..i + 14] == t[i - |outer| - 13..i - |outer| - 13 + 14];
      }
    }
  }

  lemma OccursAfterRoot(name: string, i: nat)
    ensures OccursAt(ROOT + name, SEP, i) <==> i >= 12 && OccursAt("/" + name, SEP, i - 12)
  {
    var s, t := ROOT + name, "/" + name;
    assert forall k :: 0 <= k < 12 ==> s[k] == ROOT[k] && ROOT[k] != '/';
    if i < 12 {
      assert i + 14 <= |s| ==> s[i..i + 14][0] == s[i] != SEP[0];
    } else {
      assert s[12..] == t;
      if i + 14 <= |s| {
        assert s[i..i + 14] == t[i - 12..i - 12 + 14];
      }
    }
  }

  // A plain name is cut off whole; of any other name a part is left.
  lemma CutOff(outer: string, name: string)
    requires outer != ""
    ensures PlainName(name) ==> Enclosing(outer + SEP + name) == outer
    ensures !PlainName(name) ==> |outer| < |Enclosing(outer + SEP + name)|
  {
    var s := outer + SEP + name;
    RFindMeans(s, SEP);
    assert OccursAt(s, SEP, |outer|);
    if PlainName(name) {
      forall i: nat | i > |outer| ensures !OccursAt(s, SEP, i) {
        OccursAfter(outer, name, i);
      }
      assert s[..|outer|] == outer;
    } else {
      var i: nat :| i <= |"/" + name| && OccursAt("/" + name, SEP, i);
      OccursAfter(outer, name, i + |outer| + 13);
    }
  }

  lemma CutOffRoot(name: string)
    ensures PlainName(name) ==> Enclosing(ROOT + name) == ""
    ensures !PlainName(name) ==> 0 < |Enclosing(ROOT + name)|
  {
    var s := ROOT + name;
    RFindMeans(s, SEP);
    if PlainName(name) {
      forall i: nat ensures !OccursAt(s, SEP, i) {
        OccursAfterRoot(name, i);
      }
    } else {
      var i: nat :| i <= |"/" + name| && OccursAt("/" + name, SEP, i);
      OccursAfterRoot(name, i + 12);
    }
  }

  lemma CutPath(base: string, names: seq<string>)
    requires names != []
    ensures var n := |names| - 1;
      && Path(base, names) != ""
      && (PlainName(names[n]) ==> Enclosing(Path(base, names)) == Path(base, names[..n]))
      && (!PlainName(names[n]) ==> |Path(base, names[..n])| < |Enclosing(Path(base, names))|)
  {
    var n := |names| - 1;
    var outer := Path(base, names[..n]);
    if outer == "" {
      CutOffRoot(names[n]);
    } else {
      CutOff(outer, names[n]);
    }
  }

  /******* Refinement *******/

  lemma {:induction false} WalkIsListWalk(keys: set<string>, base: string, names: seq<string>, dep: string)
    requires PlainBase(base) && AllPlain(names)
    ensures Walk(keys, Path(base, names), dep) == ListWalk(keys, base, names, dep)
    decreases |names|
  {
    PathOfMore(base, names, dep);
    if names != [] {
      CutPath(base, names);
      WalkIsListWalk(keys, base, names[..|names| - 1], dep);
    }
  }

  // The package found is the one nested deepest along the path, the root's last.
  lemma {:induction false} NearestFirst(keys: set<string>, base: string, names: seq<string>, dep: string)
    ensures match ListWalk(keys, base, names, dep)
      case None => ROOT + dep !in keys && forall k :: 0 <= k <= |names| ==> Path(base, names[..k] + [dep]) !in keys
      case Some(found) =>
        && found in keys
        && (exists k ::
              && -1 <= k <= |names| && found == At(base, names, dep, k)
              && forall j :: k < j <= |names| ==> At(base, names, dep, j) !in keys)
    decreases |names|
  {
    assert names[..|names|] == names;
    if Path(base, names + [dep]) in keys {
      assert At(base, names, dep, |names|) in keys;
    } else if names != [] {
      var fewer := names[..|names| - 1];
      NearestFirst(keys, base, fewer, dep);
      assert forall k :: 0 <= k < |names| ==> fewer[..k] == names[..k];
      assert forall k :: -1 <= k < |names| ==> At(base, fewer, dep, k) == At(base, names, dep, k);
    } else {
      assert At(base, names, dep, -1) == ROOT + dep;
    }
  }

  // Where the dependency would be installed inside the k outermost packages; -1: at the root.
  function At(base: string, names: seq<string>, dep: string, k: int): string
    requires k <= |names|
  {
    if k < 0 then ROOT + dep else Path(base, names[..k] + [dep])
  }

  /******* Where the walks part *******/

  lemma {:induction false} PathGrows(base: string, names: seq<string>, k: nat)
    requires k <= |names|
    ensures |Path(base, names[..k])| <= |Path(base, names)|
    decreases |names|
  {
    if k < |names| {
      var fewer := names[..|names| - 1];
      assert fewer[..k] == names[..k];
      PathGrows(base, fewer, k);
    } else {
      assert names[..k] == names;
    }
  }

  // With a name or a directory that is not plain, the walk over strings looks in a place
  // that belongs to none of the packages.
  lemma {:induction false} Stray(base: string, names: seq<string>, dep: string) returns (place: string)
    requires !(PlainBase(base) && AllPlain(names))
    ensures place != "" && |place| < |Path(base, names)|
    ensures Walk({place + SEP + dep}, Path(base, names), dep) == Some(place + SEP + dep)
    ensures forall k :: 0 <= k <= |names| ==> |Path(base, names[..k])| != |place|
    decreases |names|
  {
    var n := |names| - 1;
    assert names[..|names|] == names;
    if names == [] {
      RFindMeans(base, SEP);
      place := Enclosing(base);
    } else if PlainName(names[n]) {
      CutPath(base, names);
      place := Stray(base, names[..n], dep);
      assert forall k :: 0 <= k <= n ==> names[..n][..k] == names[..k];
    } else {
      CutPath(base, names);
      place := Enclosing(Path(base, names));
      EnclosingIsShorter(Path(base, names));
      forall k | 0 <= k <= n
        ensures |Path(base, names[..k])| < |place|
      {
        PathGrows(base, names[..n], k);
        assert names[..n][..k] == names[..k];
      }
    }
  }

  // The walk over strings finds what the walk over names finds, for every set of installed
  // packages, exactly when directory and names are plain.
  lemma WalksAgreeExactly(base: string, names: seq<string>, dep: string)
    ensures PlainBase(base) && AllPlain(names) <==>
      forall keys :: Walk(keys, Path(base, names), dep) == ListWalk(keys, base, names, dep)
  {
    if PlainBase(base) && AllPlain(names) {
      forall keys ensures Walk(keys, Path(base, names), dep) == ListWalk(keys, base, names, dep) {
        WalkIsListWalk(keys, base, names, dep);
      }
    } else {
      var place := Stray(base, names, dep);
      var keys := {place + SEP + dep};
      NearestFirst(keys, base, names, dep);
      forall k | 0 <= k <= |names|
        ensures At(base, names, dep, k) != place + SEP + dep
      {
        PathOfMore(base, names[..k], dep);
      }
      assert Walk(keys, Path(base, names), dep) != ListWalk(keys, base, names, dep);
    }
  }
}
