/** Reference resolution and the collection of the structs an API refers to
    (generator/generator.go). The two Go maps that collectStructsFromType fills in
    place, structsToDocument and visited, are sets here, passed in and handed back. */
module Generator {
  import opened GoStrings
  import opened Models
  import opened Utils

  // ---------------------------------------------------------------------------
  // resolvePackageAndType
  // ---------------------------------------------------------------------------

  /** (package, type name) for a base type name. A qualified `a.N` takes its package
      from the import aliases, or is `a` itself; an unqualified name belongs to the
      current package only when that package declares it. Anything else is ("", ""). */
  function ResolvePackageAndType(typ: string, currentPackage: string,
                                 importAliases: map<string, string>, defs: StructTable): (r: (string, string))
    ensures '.' !in r.1
    ensures Count(typ, '.') >= 2 ==> r == ("", "")
  {
    CountZero(typ, '.');
    if '.' in typ then
      var parts := Split(typ, '.');
      if |parts| != 2 then ("", "")
      else
        var alias := parts[0];
        var typeName := parts[1];
        if alias in importAliases then (importAliases[alias], typeName)
        else (alias, typeName)
    else if StructKey(currentPackage, typ) in defs then (currentPackage, typ)
    else ("", "")
  }

  /** A qualified name resolves through the aliases, without consulting the struct
      table. */
  lemma ResolveQualified(alias: string, name: string, currentPackage: string,
                         importAliases: map<string, string>, defs: StructTable)
    requires '.' !in alias && '.' !in name
    ensures ResolvePackageAndType(alias + "." + name, currentPackage, importAliases, defs)
      == (if alias in importAliases then importAliases[alias] else alias, name)
  {
    SplitPair(alias, name, '.');
  }

  /** Whether a qualified name resolves never depends on the struct table or the
      current package. */
  lemma ResolveQualifiedIgnoresContext(typ: string, p1: string, p2: string,
                                       importAliases: map<string, string>, d1: StructTable, d2: StructTable)
    requires '.' in typ
    ensures ResolvePackageAndType(typ, p1, importAliases, d1) == ResolvePackageAndType(typ, p2, importAliases, d2)
  {
  }

  /** An unqualified name resolves to the current package exactly when that package
      declares it, and to nothing otherwise: no other package is searched. */
  lemma ResolveUnqualified(typ: string, currentPackage: string,
                           importAliases: map<string, string>, defs: StructTable)
    requires '.' !in typ
    ensures var r := ResolvePackageAndType(typ, currentPackage, importAliases, defs);
      && (StructKey(currentPackage, typ) in defs ==> r == (currentPackage, typ))
      && (StructKey(currentPackage, typ) !in defs ==> r == ("", ""))
  {
  }

  // ---------------------------------------------------------------------------
  // What collectStructsFromType collects
  // ---------------------------------------------------------------------------

  /** The key a type refers to, when it refers to one: its base type is not a scalar
      and resolves to a non-empty name. */
  function ReferencedKey(typ: string, currentPackage: string,
                         importAliases: map<string, string>, defs: StructTable): (r: Wrappers.Option<StructKey>)
    ensures r.Some? ==> r.value.name != ""
  {
    var base := ParseGenericType(typ).0;
    if base in BasicTypes then Wrappers.None
    else
      var (pkg, typeName) := ResolvePackageAndType(base, currentPackage, importAliases, defs);
      if typeName == "" then Wrappers.None else Wrappers.Some(StructKey(pkg, typeName))
  }

  /** The keys a type mentions without looking into any struct: its own key and,
      recursively, those of its type arguments (only when it has a key itself). */
  ghost function Mentions(typ: string, currentPackage: string,
                          importAliases: map<string, string>, defs: StructTable): set<StructKey>
    decreases |typ|
  {
    match ReferencedKey(typ, currentPackage, importAliases, defs)
    case None => {}
    case Some(key) =>
      var args := ParseGenericType(typ).1;
      {key} + (set k, j | 0 <= j < |args| && k in Mentions(args[j], currentPackage, importAliases, defs) :: k)
  }

  lemma TakeSnoc<T>(s: seq<T>, i: nat)
    requires i < |s|
    ensures s[..i + 1] == s[..i] + [s[i]]
  {
  }

  /** A decorated spelling such as `[]User` is not reduced to `User`: it names a struct
      only if a struct of that very spelling is declared in the current package. */
  lemma DecoratedNotResolved(name: string, currentPackage: string,
                             importAliases: map<string, string>, defs: StructTable)
    requires '[' !in name && ']' !in name && '.' !in name
    requires StructKey(currentPackage, "[]" + name) !in defs
    ensures ReferencedKey("[]" + name, currentPackage, importAliases, defs).None?
  {
    var t := "[]" + name;
    assert t[0] == '[' && t[1] == ']';
    assert ']' !in t[2..] by { assert t[2..] == name; }
    assert '.' !in t by { assert forall x :: x in t ==> x == '[' || x == ']' || x in name; }
  }

  /** A qualified field type `alias.N` makes the struct mention the key (alias, N): the
      alias is taken literally, because fields are read with no import aliases. */
  lemma QualifiedField(key: StructKey, defs: StructTable, j: nat, alias: string, name: string)
    requires key in defs && j < |defs[key].fields|
    requires defs[key].fields[j].typ == alias + "." + name
    requires '.' !in alias && '.' !in name && '[' !in alias && '[' !in name && name != ""
    ensures StructKey(alias, name) in Succ(key, defs)
  {
    var t := alias + "." + name;
    assert '[' !in t by { assert forall x :: x in t ==> x == '.' || x in alias || x in name; }
    assert t !in BasicTypes by { assert t[|alias|] == '.'; }
    ResolveQualified(alias, name, key.package, map[], defs);
    assert ReferencedKey(t, key.package, map[], defs) == Wrappers.Some(StructKey(alias, name));
    MentionsOfKey(t, key.package, map[], defs);
    assert FieldTypes(defs[key].fields)[j] == t;
  }

  /** The keys mentioned by a list of types, all read in the same context. */
  ghost function MentionsAll(types: seq<string>, currentPackage: string,
                             importAliases: map<string, string>, defs: StructTable): set<StructKey>
  {
    set k, j | 0 <= j < |types| && k in Mentions(types[j], currentPackage, importAliases, defs) :: k
  }

  lemma MentionsAllSnoc(types: seq<string>, t: string, currentPackage: string,
                        importAliases: map<string, string>, defs: StructTable)
    ensures MentionsAll(types + [t], currentPackage, importAliases, defs)
      == MentionsAll(types, currentPackage, importAliases, defs) + Mentions(t, currentPackage, importAliases, defs)
  {
    var all := types + [t];
    var lhs := MentionsAll(all, currentPackage, importAliases, defs);
    var rhs := MentionsAll(types, currentPackage, importAliases, defs) + Mentions(t, currentPackage, importAliases, defs);
    forall k | k in lhs
      ensures k in rhs
    {
      var j :| 0 <= j < |all| && k in Mentions(all[j], currentPackage, importAliases, defs);
      if j < |types| {
        assert all[j] == types[j];
      }
    }
    forall k | k in rhs
      ensures k in lhs
    {
      if k in Mentions(t, currentPackage, importAliases, defs) {
        assert all[|types|] == t;
      } else {
        var j :| 0 <= j < |types| && k in Mentions(types[j], currentPackage, importAliases, defs);
        assert all[j] == types[j];
      }
    }
  }

  /** A type with a key mentions that key and what its arguments mention. */
  lemma MentionsOfKey(typ: string, currentPackage: string, importAliases: map<string, string>, defs: StructTable)
    requires ReferencedKey(typ, currentPackage, importAliases, defs).Some?
    ensures Mentions(typ, currentPackage, importAliases, defs)
      == {ReferencedKey(typ, currentPackage, importAliases, defs).value}
         + MentionsAll(ParseGenericType(typ).1, currentPackage, importAliases, defs)
  {
  }

  lemma MentionsAllEmpty(currentPackage: string, importAliases: map<string, string>, defs: StructTable)
    ensures MentionsAll([], currentPackage, importAliases, defs) == {}
  {
  }

  /** The types of a struct's fields. */
  function FieldTypes(fields: seq<StructField>): (r: seq<string>)
    ensures |r| == |fields|
    ensures forall j :: 0 <= j < |fields| ==> r[j] == fields[j].typ
  {
    seq(|fields|, j requires 0 <= j < |fields| => fields[j].typ)
  }

  /** The keys mentioned by the field types of a struct, each resolved in the struct's
      own package and with no import aliases. */
  ghost function Succ(key: StructKey, defs: StructTable): set<StructKey> {
    if key !in defs then {} else MentionsAll(FieldTypes(defs[key].fields), key.package, map[], defs)
  }

  /** A set of keys that holds, with each defined struct, everything its fields mention. */
  ghost predicate Closed(c: set<StructKey>, defs: StructTable) {
    forall k :: k in c ==> Succ(k, defs) <= c
  }

  /** s lies inside every closed set that contains base. */
  ghost predicate Below(s: set<StructKey>, defs: StructTable, base: set<StructKey>) {
    forall c :: Closed(c, defs) && base <= c ==> s <= c
  }

  ghost predicate NoDup<T>(s: seq<T>) {
    forall i, j :: 0 <= i < j < |s| ==> s[i] != s[j]
  }

  lemma NoDupAppend<T>(a: seq<T>, b: seq<T>)
    requires NoDup(a) && NoDup(b)
    requires forall x :: x in a ==> x !in b
    ensures NoDup(a + b)
  {
    forall i, j | 0 <= i < j < |a + b|
      ensures (a + b)[i] != (a + b)[j]
    {
      if j >= |a| && i < |a| {
        assert (a + b)[i] in a && (a + b)[j] in b;
      }
    }
  }

  lemma {:induction false} SubsetCard<T>(a: set<T>, b: set<T>)
    requires a <= b
    ensures |a| <= |b|
    decreases |a|
  {
    if a != {} {
      var x :| x in a;
      SubsetCard(a - {x}, b - {x});
    }
  }

  /** The keys of the struct table not visited yet can only become fewer. */
  lemma Unvisited(defs: StructTable, v1: set<StructKey>, v2: set<StructKey>)
    requires v1 <= v2
    ensures |defs.Keys - v2| <= |defs.Keys - v1|
  {
    SubsetCard(defs.Keys - v2, defs.Keys - v1);
  }

  /** Visiting a defined key not visited before leaves strictly fewer unvisited keys. */
  lemma VisitShrinks(defs: StructTable, v: set<StructKey>, key: StructKey)
    requires key in defs && key !in v
    ensures |defs.Keys - (v + {key})| < |defs.Keys - v|
  {
    assert defs.Keys - (v + {key}) == (defs.Keys - v) - {key};
  }

  /** What one call does to the sets, from (doc0, vis0) to (doc, vis): both only grow,
      every new document key is visited, every newly visited key is a document key
      whose fields' mentions are all documented, and `expanded` lists, without
      repetition, the newly visited keys that have a definition: the structs whose
      fields the call traversed. */
  ghost predicate Grows(defs: StructTable, doc0: set<StructKey>, vis0: set<StructKey>,
                        doc: set<StructKey>, vis: set<StructKey>, expanded: seq<StructKey>)
  {
    && doc0 <= doc && vis0 <= vis
    && doc - doc0 <= vis
    && vis - vis0 <= doc
    && (forall k :: k in vis && k !in vis0 ==> Succ(k, defs) <= doc)
    && NoDup(expanded)
    && (forall k :: k in expanded <==> k in vis && k !in vis0 && k in defs)
  }

  lemma GrowsRefl(defs: StructTable, doc: set<StructKey>, vis: set<StructKey>)
    ensures Grows(defs, doc, vis, doc, vis, [])
  {
  }

  /** Growth composes: two calls in a row grow like one. */
  lemma GrowsTrans(defs: StructTable, d0: set<StructKey>, v0: set<StructKey>, d1: set<StructKey>, v1: set<StructKey>,
                   e1: seq<StructKey>, d2: set<StructKey>, v2: set<StructKey>, e2: seq<StructKey>)
    requires Grows(defs, d0, v0, d1, v1, e1) && Grows(defs, d1, v1, d2, v2, e2)
    ensures Grows(defs, d0, v0, d2, v2, e1 + e2)
  {
    NoDupAppend(e1, e2);
  }

  /** The key was already visited: adding it to the documents needs no more work. */
  lemma GrowsSeen(defs: StructTable, doc0: set<StructKey>, vis0: set<StructKey>, key: StructKey,
                  doc: set<StructKey>, vis: set<StructKey>, e: seq<StructKey>)
    requires Grows(defs, doc0 + {key}, vis0, doc, vis, e) && key in vis
    ensures Grows(defs, doc0, vis0, doc, vis, e)
  {
  }

  /** The key is visited now but has no definition: there are no fields to traverse. */
  lemma GrowsUndefined(defs: StructTable, doc0: set<StructKey>, vis0: set<StructKey>, key: StructKey,
                       doc: set<StructKey>, vis: set<StructKey>, e: seq<StructKey>)
    requires Grows(defs, doc0 + {key}, vis0, doc, vis, e) && key !in vis && key !in defs
    ensures Grows(defs, doc0, vis0, doc, vis + {key}, e)
  {
  }

  /** The key is visited now and its fields were traversed. */
  lemma GrowsExpanded(defs: StructTable, doc0: set<StructKey>, vis0: set<StructKey>, key: StructKey,
                      docA: set<StructKey>, visA: set<StructKey>, eA: seq<StructKey>,
                      docF: set<StructKey>, visF: set<StructKey>, eF: seq<StructKey>)
    requires Grows(defs, doc0 + {key}, vis0, docA, visA, eA)
    requires key !in visA && key in defs
    requires Grows(defs, docA, visA + {key}, docF, visF, eF)
    requires Succ(key, defs) <= docF
    ensures Grows(defs, doc0, vis0, docF, visF, eA + [key] + eF)
  {
    NoDupAppend(eA, [key]);
    NoDupAppend(eA + [key], eF);
  }

  /** A set between doc0 and the closure of doc0 + s keeps new material inside that closure. */
  lemma BelowUnion(defs: StructTable, docA: set<StructKey>, base: set<StructKey>, key: StructKey, docF: set<StructKey>)
    requires Below(docA, defs, base) && key in base
    requires Below(docF, defs, docA + Succ(key, defs))
    ensures Below(docF, defs, base)
  {
    forall c | Closed(c, defs) && base <= c
      ensures docF <= c
    {
      assert Succ(key, defs) <= c;
    }
  }

  /** A length longer than that of every type in the list. */
  ghost function LongerThanAll(types: seq<string>): (r: nat)
    ensures forall j :: 0 <= j < |types| ==> |types[j]| < r
  {
    if types == [] then 0
    else
      var m := LongerThanAll(types[1..]);
      assert forall j :: 1 <= j < |types| ==> types[j] == types[1..][j - 1];
      if |types[0]| < m then m else |types[0]| + 1
  }

  /** collectStructsFromType: documents the struct a type refers to, then, in the same
      context, everything its type arguments refer to, and then, once per key and only
      for a struct that has a definition, everything its fields refer to, each field
      read in the struct's own package with no import aliases. */
  method CollectStructsFromType(typ: string, currentPackage: string, importAliases: map<string, string>,
                                defs: StructTable, doc0: set<StructKey>, vis0: set<StructKey>)
    returns (doc: set<StructKey>, vis: set<StructKey>, ghost expanded: seq<StructKey>)
    ensures Grows(defs, doc0, vis0, doc, vis, expanded)
    ensures Mentions(typ, currentPackage, importAliases, defs) <= doc
    ensures Below(doc, defs, doc0 + Mentions(typ, currentPackage, importAliases, defs))
    ensures ReferencedKey(typ, currentPackage, importAliases, defs).None? ==> doc == doc0 && vis == vis0
    ensures ReferencedKey(typ, currentPackage, importAliases, defs).Some? ==>
      ReferencedKey(typ, currentPackage, importAliases, defs).value in doc
    decreases |defs.Keys - vis0|, |typ|, 2
  {
    doc, vis, expanded := doc0, vis0, [];
    var (baseType, typeArgs) := ParseGenericType(typ);
    var basic := IsBasicType(baseType);
    if basic {
      return;
    }
    var (pkg, typeName) := ResolvePackageAndType(baseType, currentPackage, importAliases, defs);
    if typeName == "" {
      return;
    }
    var key := StructKey(pkg, typeName);
    assert ReferencedKey(typ, currentPackage, importAliases, defs) == Wrappers.Some(key);
    MentionsOfKey(typ, currentPackage, importAliases, defs);
    doc := doc + {key};

    // The type arguments, in the same context.
    doc, vis, expanded := CollectAll(typeArgs, currentPackage, importAliases, defs, doc, vis, |typ|);

    // The fields, at most once per key.
    if key in vis {
      GrowsSeen(defs, doc0, vis0, key, doc, vis, expanded);
      return;
    }
    if key !in defs {
      GrowsUndefined(defs, doc0, vis0, key, doc, vis, expanded);
      vis := vis + {key};
      return;
    }
    var docA, visA := doc, vis;
    ghost var eA := expanded;
    VisitShrinks(defs, visA, key);
    Unvisited(defs, vis0, visA);
    var fields := defs[key].fields;
    var types := seq(|fields|, j requires 0 <= j < |fields| => fields[j].typ);
    assert types == FieldTypes(fields);
    var docF, visF, eF := CollectAll(types, key.package, map[], defs, docA, visA + {key}, LongerThanAll(types));
    BelowUnion(defs, docA, doc0 + Mentions(typ, currentPackage, importAliases, defs), key, docF);
    GrowsExpanded(defs, doc0, vis0, key, docA, visA, eA, docF, visF, eF);
    doc, vis, expanded := docF, visF, eA + [key] + eF;
  }

  /** Each type of the list in turn, in one context (the loops over type arguments and
      over fields in collectStructsFromType). */
  method CollectAll(types: seq<string>, currentPackage: string, importAliases: map<string, string>,
                    defs: StructTable, doc0: set<StructKey>, vis0: set<StructKey>, ghost bound: nat)
    returns (doc: set<StructKey>, vis: set<StructKey>, ghost expanded: seq<StructKey>)
    requires forall j :: 0 <= j < |types| ==> |types[j]| < bound
    ensures Grows(defs, doc0, vis0, doc, vis, expanded)
    ensures MentionsAll(types, currentPackage, importAliases, defs) <= doc
    ensures Below(doc, defs, doc0 + MentionsAll(types, currentPackage, importAliases, defs))
    decreases |defs.Keys - vis0|, bound, 1
  {
    doc, vis, expanded := doc0, vis0, [];
    GrowsRefl(defs, doc, vis);
    MentionsAllEmpty(currentPackage, importAliases, defs);
    for i := 0 to |types|
      invariant Grows(defs, doc0, vis0, doc, vis, expanded)
      invariant MentionsAll(types[..i], currentPackage, importAliases, defs) <= doc
      invariant Below(doc, defs, doc0 + MentionsAll(types[..i], currentPackage, importAliases, defs))
    {
      Unvisited(defs, vis0, vis);
      TakeSnoc(types, i);
      MentionsAllSnoc(types[..i], types[i], currentPackage, importAliases, defs);
      ghost var (d, v, e) := (doc, vis, expanded);
      var doc', vis', ex' := CollectStructsFromType(types[i], currentPackage, importAliases, defs, doc, vis);
      GrowsTrans(defs, doc0, vis0, d, v, e, doc', vis', ex');
      doc, vis, expanded := doc', vis', e + ex';
    }
    assert types[..|types|] == types;
  }

  // ---------------------------------------------------------------------------
  // collectStructsToDocument
  // ---------------------------------------------------------------------------

  function ParamTypes(ps: seq<APIParameter>): (r: seq<string>)
    ensures |r| == |ps|
    ensures forall j :: 0 <= j < |ps| ==> r[j] == ps[j].typ
  {
    seq(|ps|, j requires 0 <= j < |ps| => ps[j].typ)
  }

  function ResultTypes(rs: seq<APIReturn>): (r: seq<string>)
    ensures |r| == |rs|
    ensures forall j :: 0 <= j < |rs| ==> r[j] == rs[j].typ
  {
    seq(|rs|, j requires 0 <= j < |rs| => rs[j].typ)
  }

  /** The keys a function mentions directly: those of its parameter and result types,
      read in the function's own package and with its file's import aliases. */
  ghost function FunctionSeeds(f: APIFunction, defs: StructTable): set<StructKey> {
    MentionsAll(ParamTypes(f.parameters), f.packageName, f.importAliases, defs)
      + MentionsAll(ResultTypes(f.results), f.packageName, f.importAliases, defs)
  }

  /** The keys all the functions mention directly. */
  ghost function Seeds(fs: seq<APIFunction>, defs: StructTable): set<StructKey>
    decreases |fs|
  {
    if fs == [] then {} else Seeds(fs[..|fs| - 1], defs) + FunctionSeeds(fs[|fs| - 1], defs)
  }

  lemma SeedsSnoc(fs: seq<APIFunction>, i: nat, defs: StructTable)
    requires i < |fs|
    ensures Seeds(fs[..i + 1], defs) == Seeds(fs[..i], defs) + FunctionSeeds(fs[i], defs)
  {
    assert fs[..i + 1][..i] == fs[..i];
  }

  /** Chaining two calls: what the second adds stays inside every closed set that holds
      the first call's base and the second call's extra seeds. */
  lemma BelowChain(defs: StructTable, a: set<StructKey>, base: set<StructKey>,
                   extra: set<StructKey>, b: set<StructKey>)
    requires Below(a, defs, base) && Below(b, defs, a + extra)
    ensures Below(b, defs, base + extra)
  {
    forall c | Closed(c, defs) && base + extra <= c
      ensures b <= c
    {
      assert a <= c;
    }
  }

  /** Calls that start from two empty sets leave the documented keys equal to the
      visited ones, closed under the fields of their structs. */
  lemma GrowsFromEmpty(defs: StructTable, doc: set<StructKey>, vis: set<StructKey>, e: seq<StructKey>)
    requires Grows(defs, {}, {}, doc, vis, e)
    ensures doc == vis && Closed(doc, defs)
    ensures forall k :: k in e <==> k in doc && k in defs
  {
  }

  /** collectStructsToDocument: every parameter type and then every result type of every
      function, in order, through one shared visited set. The result is the least set
      that holds every key the functions mention and, with each struct that has a
      definition, every key its fields mention; `expanded` lists each of those structs
      once. */
  method CollectStructsToDocument(fs: seq<APIFunction>, defs: StructTable)
    returns (doc: set<StructKey>, ghost expanded: seq<StructKey>)
    ensures Seeds(fs, defs) <= doc
    ensures Closed(doc, defs)
    ensures Below(doc, defs, Seeds(fs, defs))
    ensures NoDup(expanded)
    ensures forall k :: k in expanded <==> k in doc && k in defs
  {
    doc, expanded := {}, [];
    var vis: set<StructKey> := {};
    GrowsRefl(defs, doc, vis);
    for i := 0 to |fs|
      invariant Grows(defs, {}, {}, doc, vis, expanded)
      invariant Seeds(fs[..i], defs) <= doc
      invariant Below(doc, defs, Seeds(fs[..i], defs))
    {
      var f := fs[i];
      SeedsSnoc(fs, i, defs);
      var params := ParamTypes(f.parameters);
      var pd, pv, pe := CollectAll(params, f.packageName, f.importAliases, defs, doc, vis, LongerThanAll(params));
      var results := ResultTypes(f.results);
      var rd, rv, re := CollectAll(results, f.packageName, f.importAliases, defs, pd, pv, LongerThanAll(results));
      GrowsTrans(defs, {}, {}, doc, vis, expanded, pd, pv, pe);
      GrowsTrans(defs, {}, {}, pd, pv, expanded + pe, rd, rv, re);
      BelowChain(defs, doc, Seeds(fs[..i], defs), MentionsAll(params, f.packageName, f.importAliases, defs), pd);
      BelowChain(defs, pd, Seeds(fs[..i], defs) + MentionsAll(params, f.packageName, f.importAliases, defs),
                 MentionsAll(results, f.packageName, f.importAliases, defs), rd);
      doc, vis, expanded := rd, rv, expanded + pe + re;
    }
    assert fs[..|fs|] == fs;
    GrowsFromEmpty(defs, doc, vis, expanded);
  }

  /** The closed sets that hold the seeds and lie below every other such set are one
      set: the result of collectStructsToDocument is determined by its contract. */
  lemma LeastClosedUnique(defs: StructTable, base: set<StructKey>, a: set<StructKey>, b: set<StructKey>)
    requires Closed(a, defs) && base <= a && Below(a, defs, base)
    requires Closed(b, defs) && base <= b && Below(b, defs, base)
    ensures a == b
  {
  }
}
