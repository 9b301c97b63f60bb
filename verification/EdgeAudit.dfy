/** The audit of the locked protocol packages: every dependency edge on one of them must
    resolve to the required version. */
module EdgeAudit {
  import opened Prelude
  import opened NodeModules

  datatype Json = Null | Text(text: string) | Object(fields: map<string, Json>) | Scalar(id: int)

  datatype Violation = Unresolved(path: string, dep: string) | AuditFailed

  const PROTOCOL: set<string> := {"@ag-ui/client", "@ag-ui/core", "@ag-ui/encoder", "@ag-ui/proto"}

  // A package's dependencies; None where they are not an object.
  function Edges(meta: Json): Option<map<string, Json>>
    requires meta.Object?
  {
    if "dependencies" !in meta.fields then Some(map[])
    else if meta.fields["dependencies"].Object? then Some(meta.fields["dependencies"].fields)
    else None
  }

  predicate IsEdge(packages: map<string, Json>, path: string, dep: string) {
    path in packages && packages[path].Object? && Edges(packages[path]).Some?
    && dep in Edges(packages[path]).value && dep in PROTOCOL
  }

  function Required(packages: map<string, Json>, path: string, dep: string): Json
    requires IsEdge(packages, path, dep)
  {
    Edges(packages[path]).value[dep]
  }

  function Version(meta: Json): Json
    requires meta.Object?
  {
    if "version" in meta.fields then meta.fields["version"] else Null
  }

  /******* What the audit promises *******/

  // The edge resolves to a package that is not an object, which raises.
  predicate EdgeRaises(packages: map<string, Json>, path: string, dep: string) {
    IsEdge(packages, path, dep) &&
    match Walk(packages.Keys, path, dep)
    case None => false
    case Some(found) => found in packages && !packages[found].Object?
  }

  predicate EdgeSatisfied(packages: map<string, Json>, path: string, dep: string, found: Option<string>)
    requires IsEdge(packages, path, dep)
  {
    && found.Some? && found.value in packages && packages[found.value].Object?
    && Version(packages[found.value]) == Required(packages, path, dep)
  }

  predicate EdgeOk(packages: map<string, Json>, path: string, dep: string)
    requires IsEdge(packages, path, dep)
  {
    EdgeSatisfied(packages, path, dep, Walk(packages.Keys, path, dep))
  }

  predicate BadEdges(packages: map<string, Json>, path: string) {
    path in packages && packages[path].Object? && Edges(packages[path]).None?
  }

  ghost predicate Malformed(packages: map<string, Json>) {
    || (exists path :: BadEdges(packages, path))
    || (exists path, dep :: EdgeRaises(packages, path, dep))
  }

  ghost predicate AllEdgesOk(packages: map<string, Json>) {
    && (forall path :: !BadEdges(packages, path))
    && (forall path, dep :: IsEdge(packages, path, dep) ==> EdgeOk(packages, path, dep))
  }

  // The violations name exactly the unsatisfied edges among those seen so far.
  ghost predicate Reports(violations: seq<Violation>, packages: map<string, Json>, seen: set<string>) {
    && AuditFailed !in violations
    && forall path, dep :: Unresolved(path, dep) in violations <==>
         path in seen && IsEdge(packages, path, dep) && !EdgeOk(packages, path, dep)
  }

  /******* The audit *******/

  method Audit(lock: Json) returns (violations: seq<Violation>)
    ensures AuditFailed in violations <==> !lock.Object? || Malformed(lock.fields)
    ensures AuditFailed !in violations ==> Reports(violations, lock.fields, lock.fields.Keys)
    ensures violations == [] <==> lock.Object? && AllEdgesOk(lock.fields)
  {
    violations := [];
    if !lock.Object? {
      return [AuditFailed];
    }
    var packages := lock.fields;
    var left := packages.Keys;
    while left != {}
      invariant left <= packages.Keys
      invariant Reports(violations, packages, packages.Keys - left)
      invariant forall path :: path in packages.Keys - left ==> Sound(packages, path)
      decreases left
    {
      var path :| path in left;
      if packages[path].Object? {
        if Edges(packages[path]).None? {
          assert BadEdges(packages, path);
          return violations + [AuditFailed];
        }
        var more, raised := AuditPackage(packages, path);
        if raised {
          return violations + more + [AuditFailed];
        }
        assert packages.Keys - (left - {path}) == packages.Keys - left + {path};
        JoinReports(violations, more, packages, packages.Keys - left, path);
        violations := violations + more;
      } else {
        assert packages.Keys - (left - {path}) == packages.Keys - left + {path};
        JoinReports(violations, [], packages, packages.Keys - left, path);
        assert violations + [] == violations;
      }
      left := left - {path};
    }
    assert packages.Keys - {} == packages.Keys;
    AllSound(packages);
    NothingToReport(violations, packages);
  }

  // Nothing about the package raises.
  ghost predicate Sound(packages: map<string, Json>, path: string) {
    !BadEdges(packages, path) && forall dep :: !EdgeRaises(packages, path, dep)
  }

  // The edges of one package.
  method AuditPackage(packages: map<string, Json>, path: string) returns (violations: seq<Violation>, raised: bool)
    requires path in packages && packages[path].Object? && Edges(packages[path]).Some?
    ensures raised <==> exists dep :: EdgeRaises(packages, path, dep)
    ensures AuditFailed !in violations
    ensures !raised ==> forall p, dep :: Unresolved(p, dep) in violations <==>
      p == path && IsEdge(packages, path, dep) && !EdgeOk(packages, path, dep)
  {
    violations, raised := [], false;
    var edges := Edges(packages[path]).value;
    var left := edges.Keys;
    while left != {}
      invariant left <= edges.Keys && AuditFailed !in violations
      invariant forall dep :: dep in edges.Keys - left ==> !EdgeRaises(packages, path, dep)
      invariant forall p, dep :: Unresolved(p, dep) in violations <==>
        p == path && dep !in left && IsEdge(packages, path, dep) && !EdgeOk(packages, path, dep)
      decreases left
    {
      var dep :| dep in left;
      if dep in PROTOCOL {
        var resolved := Resolve(packages.Keys, path, dep);
        if resolved.Some? {
          WalkFinds(packages.Keys, path, dep);
        }
        if resolved.Some? && !packages[resolved.value].Object? {
          assert EdgeRaises(packages, path, dep);
          raised := true;
          return;
        }
        if resolved.None? || Version(packages[resolved.value]) != edges[dep] {
          violations := violations + [Unresolved(path, dep)];
        }
      }
      left := left - {dep};
    }
  }

  lemma {:induction false} WalkFinds(keys: set<string>, location: string, dep: string)
    ensures Walk(keys, location, dep).Some? ==> Walk(keys, location, dep).value in keys
    decreases |location|
  {
    if location != "" && location + SEP + dep !in keys {
      EnclosingIsShorter(location);
      WalkFinds(keys, Enclosing(location), dep);
    }
  }

  lemma JoinReports(violations: seq<Violation>, more: seq<Violation>, packages: map<string, Json>, seen: set<string>,
      path: string)
    requires Reports(violations, packages, seen) && AuditFailed !in more && path !in seen
    requires forall p, dep :: Unresolved(p, dep) in more <==>
      p == path && IsEdge(packages, path, dep) && !EdgeOk(packages, path, dep)
    ensures Reports(violations + more, packages, seen + {path})
  {
  }

  lemma AllSound(packages: map<string, Json>)
    requires forall path :: path in packages ==> Sound(packages, path)
    ensures !Malformed(packages)
  {
  }

  lemma NothingToReport(violations: seq<Violation>, packages: map<string, Json>)
    requires !Malformed(packages) && Reports(violations, packages, packages.Keys)
    ensures violations == [] <==> AllEdgesOk(packages)
  {
    if violations == [] {
      forall path, dep | IsEdge(packages, path, dep)
        ensures EdgeOk(packages, path, dep)
      {
        assert Unresolved(path, dep) !in violations;
      }
    } else {
      var v := violations[0];
      assert v in violations && v.Unresolved?;
      assert IsEdge(packages, v.path, v.dep) && !EdgeOk(packages, v.path, v.dep);
    }
  }

  // In a lock whose paths are made of plain names, the edges the audit accepts are those
  // that resolve to the required version walking over the names, nearest package first.
  lemma AuditIsNearestResolution(packages: map<string, Json>, base: map<string, string>,
      names: map<string, seq<string>>)
    requires forall path :: path in packages ==>
      path in base && path in names && Path(base[path], names[path]) == path && PlainBase(base[path])
        && AllPlain(names[path])
    ensures AllEdgesOk(packages) <==>
      (forall path :: !BadEdges(packages, path)) &&
      (forall path, dep :: IsEdge(packages, path, dep) ==>
         EdgeSatisfied(packages, path, dep, ListWalk(packages.Keys, base[path], names[path], dep)))
  {
    forall path, dep | IsEdge(packages, path, dep)
      ensures Walk(packages.Keys, path, dep) == ListWalk(packages.Keys, base[path], names[path], dep)
    {
      WalkIsListWalk(packages.Keys, base[path], names[path], dep);
    }
  }
}
