/** What the audit of dependency edges asks of a lock, on its JSON values and paths. */
module EdgeAuditMeaning {
  import opened Prelude
  import opened Strings
  import opened NodeModules
  import opened EdgeAudit

  // The path of a package below a directory, and at the root.
  lemma PathText(base: string, a: string, b: string)
    ensures Path("", [a]) == "node_modules/" + a
    ensures Path("", [a, b]) == "node_modules/" + a + "/node_modules/" + b
    ensures base != "" ==> Path(base, [a]) == base + "/node_modules/" + a
    ensures base != "" ==> Path(base, [a, b]) == base + "/node_modules/" + a + "/node_modules/" + b
  {
    assert [a, b][..1] == [a] && [a][..0] == [];
    assert Path("", [a]) == "node_modules/" + a;
  }

  // The package at the path says that it depends on another in this version.
  predicate Says(packages: map<string, Json>, path: string, dep: string, version: Json) {
    && path in packages && packages[path].Object? && "dependencies" in packages[path].fields
    && var edges := packages[path].fields["dependencies"];
    edges.Object? && dep in edges.fields && edges.fields[dep] == version
  }

  predicate IsProtocol(dep: string) {
    dep == "@ag-ui/client" || dep == "@ag-ui/core" || dep == "@ag-ui/encoder" || dep == "@ag-ui/proto"
  }

  // The package at the path has this version; one that gives none has the null version.
  predicate HasVersion(packages: map<string, Json>, path: string, version: Json) {
    && path in packages && packages[path].Object?
    && (if "version" in packages[path].fields then packages[path].fields["version"] == version else version == Null)
  }

  // The package states its dependencies as something else than an object.
  predicate Garbled(packages: map<string, Json>, path: string) {
    && path in packages && packages[path].Object? && "dependencies" in packages[path].fields
    && !packages[path].fields["dependencies"].Object?
  }

  // Edges and what they ask for, in these terms.
  lemma EdgeMeans(packages: map<string, Json>, path: string, dep: string)
    ensures IsEdge(packages, path, dep) <==> IsProtocol(dep) && exists v :: Says(packages, path, dep, v)
    ensures forall v :: IsEdge(packages, path, dep) && Says(packages, path, dep, v) ==>
      (EdgeOk(packages, path, dep) <==>
         var found := Walk(packages.Keys, path, dep); found.Some? && HasVersion(packages, found.value, v))
  {
    if IsEdge(packages, path, dep) {
      assert Says(packages, path, dep, Required(packages, path, dep));
    }
  }

  // A lock is accepted exactly if no package garbles its dependencies, and whatever version
  // of one of the four protocol packages some package says it depends on, the package found
  // for it has that version.
  lemma AcceptedExactly(packages: map<string, Json>)
    ensures AllEdgesOk(packages) <==>
      && (forall path :: !Garbled(packages, path))
      && (forall path, dep, v :: IsProtocol(dep) && Says(packages, path, dep, v) ==>
            var found := Walk(packages.Keys, path, dep); found.Some? && HasVersion(packages, found.value, v))
  {
    assert forall path :: Garbled(packages, path) <==> BadEdges(packages, path);
    forall path, dep
      ensures IsEdge(packages, path, dep) <==> IsProtocol(dep) && exists v :: Says(packages, path, dep, v)
      ensures forall v :: IsEdge(packages, path, dep) && Says(packages, path, dep, v) ==>
        (EdgeOk(packages, path, dep) <==>
           var found := Walk(packages.Keys, path, dep); found.Some? && HasVersion(packages, found.value, v))
    {
      EdgeMeans(packages, path, dep);
    }
    if !AllEdgesOk(packages) && forall path :: !Garbled(packages, path) {
      var path, dep :| IsEdge(packages, path, dep) && !EdgeOk(packages, path, dep);
      var v :| Says(packages, path, dep, v);
    }
  }
}
