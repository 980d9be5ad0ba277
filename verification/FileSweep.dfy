/** Mark and sweep of File documents: every id found at a declared path of a loaded model is marked,
    and the listed Files that are not marked are deleted. */
module FileSweep {
  import opened Base

  // ----- documents

  /** A stored value. `Text` is any scalar or id by its printed form, the empty one standing for every
      falsy scalar. */
  datatype Value = Null | Text(s: string) | Doc(fields: map<string, Value>) | Arr(items: seq<Value>)

  predicate Truthy(v: Value) {
    !v.Null? && v != Text("")
  }

  /** How a value prints: what `toString` gives for it. */
  function Str(v: Value): string {
    match v
    case Null => ""
    case Text(s) => s
    case Doc(_) => "[object Object]"
    case Arr(items) => StrAll(items)
  }

  function StrAll(items: seq<Value>): string {
    if items == [] then ""
    else if |items| == 1 then Str(items[0])
    else Str(items[0]) + "," + StrAll(items[1..])
  }

  /** Optional property access; arrays and scalars have no property of a declared name. */
  function Property(v: Option<Value>, part: string): Option<Value> {
    if v.Some? && v.value.Doc? && part in v.value.fields then Some(v.value.fields[part]) else None
  }

  function Reach(v: Option<Value>, path: seq<string>): Option<Value>
    decreases |path|
  {
    if path == [] then v else Reach(Property(v, path[0]), path[1..])
  }

  // ----- the query `{ path: { $exists: true, $ne: null } }`

  /** The database looks through an array of sub-documents. */
  ghost predicate Exists(v: Value, path: seq<string>)
    decreases |path|, v
  {
    if path == [] then true else
    match v
    case Doc(fields) => path[0] in fields && Exists(fields[path[0]], path[1..])
    case Arr(items) => exists i :: 0 <= i < |items| && items[i].Doc? && Exists(items[i], path)
    case _ => false
  }

  /** Null at the end, a null entry of the array at the end, or nothing there at all. */
  ghost predicate EqualsNull(v: Value, path: seq<string>)
    decreases |path|, v
  {
    if path == [] then v.Null? || (v.Arr? && Null in v.items) else
    match v
    case Doc(fields) => path[0] !in fields || EqualsNull(fields[path[0]], path[1..])
    case Arr(items) => exists i :: 0 <= i < |items| && items[i].Doc? && EqualsNull(items[i], path)
    case _ => true
  }

  ghost predicate Matches(doc: Value, path: seq<string>) {
    Exists(doc, path) && !EqualsNull(doc, path)
  }

  // ----- the reference tree

  /** `File` is the literal true; `Nothing` is null, on which the scan throws; `Other` is any further
      scalar, which it passes over. A key with dots spells a path. */
  datatype Ref = File | Other | Nothing | Nested(entries: seq<Entry>)
  datatype Entry = Entry(name: seq<string>, value: Ref)

  datatype RefConfig = RefConfig(model: string, tree: Ref)

  /** The paths a tree marks as references. */
  ghost predicate Declared(t: Ref, path: seq<string>) {
    match t
    case File => path == []
    case Nested(es) => exists k :: 0 <= k < |es| && es[k].name <= path && Declared(es[k].value, path[|es[k].name|..])
    case _ => false
  }

  predicate HasNull(t: Ref) {
    t.Nothing? || (t.Nested? && exists k :: 0 <= k < |t.entries| && HasNull(t.entries[k].value))
  }

  /** A null stands in the tree, under some path. */
  ghost predicate NothingAt(t: Ref, path: seq<string>) {
    match t
    case Nothing => path == []
    case Nested(es) => exists k :: 0 <= k < |es| && es[k].name <= path && NothingAt(es[k].value, path[|es[k].name|..])
    case _ => false
  }

  lemma {:induction false} HasNullExactly(t: Ref)
    ensures HasNull(t) <==> exists path :: NothingAt(t, path)
  {
    match t
    case Nested(es) =>
      forall k | 0 <= k < |es| ensures HasNull(es[k].value) <==> exists path :: NothingAt(es[k].value, path) {
        HasNullExactly(es[k].value);
      }
      if k :| 0 <= k < |es| && HasNull(es[k].value) {
        var rest :| NothingAt(es[k].value, rest);
        var path := es[k].name + rest;
        assert es[k].name <= path && path[|es[k].name|..] == rest;
        assert NothingAt(t, path);
      }
    case Nothing =>
      var none: seq<string> := [];
      assert NothingAt(t, none);
    case _ =>
  }

  /** What each query of the run finds: the documents of the model at that moment, or None when it
      throws. Different queries may see different documents. */
  type Finder = (string, seq<string>) -> Option<seq<Value>>

  /** What one document adds to the marks for one path. */
  ghost predicate Collected(v: Option<Value>, id: string) {
    v.Some? && v.value != Null && v.value != Text("") &&
    if v.value.Arr? then
      exists i :: 0 <= i < |v.value.items| && v.value.items[i] != Null && v.value.items[i] != Text("") && Str(v.value.items[i]) == id
    else Str(v.value) == id
  }

  ghost predicate Seen(doc: Value, path: seq<string>, id: string) {
    Matches(doc, path) && Collected(Reach(Some(doc), path), id)
  }

  ghost predicate SeenIn(docs: seq<Value>, path: seq<string>, id: string) {
    exists d :: 0 <= d < |docs| && Seen(docs[d], path, id)
  }

  ghost predicate Mentioned(find: Finder, model: string, path: seq<string>, id: string) {
    find(model, path).Some? && SeenIn(find(model, path).value, path, id)
  }

  ghost predicate Under(find: Finder, model: string, prefix: seq<string>, t: Ref, id: string) {
    exists path :: Declared(t, path) && Mentioned(find, model, prefix + path, id)
  }

  ghost predicate Breaks(find: Finder, model: string, prefix: seq<string>, t: Ref) {
    HasNull(t) || exists path :: Declared(t, path) && find(model, prefix + path).None?
  }

  // ----- the scan

  method Navigate(doc: Value, parts: seq<string>) returns (value: Option<Value>)
    ensures value == Reach(Some(doc), parts)
  {
    value := Some(doc);
    assert parts[0..] == parts;
    for i := 0 to |parts|
      invariant Reach(value, parts[i..]) == Reach(Some(doc), parts)
    {
      assert parts[i..][1..] == parts[i + 1..];
      value := Property(value, parts[i]);
    }
  }

  /** Marks what one document holds. */
  method Collect(value: Option<Value>, marked: set<string>) returns (out: set<string>)
    ensures forall id :: id in out <==> id in marked || Collected(value, id)
  {
    out := marked;
    if value.Some? && Truthy(value.value) {
      if value.value.Arr? {
        var items := value.value.items;
        for i := 0 to |items|
          invariant forall id :: id in out <==> id in marked || exists k :: 0 <= k < i && Truthy(items[k]) && Str(items[k]) == id
        {
          if Truthy(items[i]) { out := out + {Str(items[i])}; }
        }
      } else {
        out := out + {Str(value.value)};
      }
    }
  }

  /** One field: query, then walk each document of the answer. */
  method ScanField(docs: seq<Value>, path: seq<string>, marked: set<string>) returns (out: set<string>)
    ensures forall id :: id in out <==> id in marked || SeenIn(docs, path, id)
  {
    out := marked;
    for d := 0 to |docs|
      invariant forall id :: id in out <==> id in marked || SeenIn(docs[..d], path, id)
    {
      ghost var was := out;
      assert docs[..d + 1] == docs[..d] + [docs[d]];
      var hit := Query(docs[d], path);
      if hit {
        var value := Navigate(docs[d], path);
        out := Collect(value, out);
      }
      forall id ensures SeenIn(docs[..d + 1], path, id) <==> SeenIn(docs[..d], path, id) || Seen(docs[d], path, id) {
        SeenInSnoc(docs[..d], docs[d], path, id);
      }
    }
    assert docs[..|docs|] == docs;
  }

  lemma {:induction false} SeenInSnoc(docs: seq<Value>, doc: Value, path: seq<string>, id: string)
    ensures SeenIn(docs + [doc], path, id) <==> SeenIn(docs, path, id) || Seen(doc, path, id)
  {
    if SeenIn(docs, path, id) {
      var d :| 0 <= d < |docs| && Seen(docs[d], path, id);
      assert (docs + [doc])[d] == docs[d];
    }
    if Seen(doc, path, id) { assert (docs + [doc])[|docs|] == doc; }
  }

  /** The database's side of the query. */
  method Query(doc: Value, path: seq<string>) returns (hit: bool)
    ensures hit == Matches(doc, path)
  {
    var present := Present(doc, path);
    var isNull := IsNull(doc, path);
    hit := present && !isNull;
  }

  method Present(v: Value, path: seq<string>) returns (r: bool)
    ensures r == Exists(v, path)
    decreases |path|, v
  {
    if path == [] { return true; }
    match v
    case Doc(fields) =>
      if path[0] in fields { r := Present(fields[path[0]], path[1..]); } else { r := false; }
    case Arr(items) =>
      r := false;
      for i := 0 to |items|
        invariant r == exists k :: 0 <= k < i && items[k].Doc? && Exists(items[k], path)
      {
        if items[i].Doc? {
          var here := Present(items[i], path);
          r := r || here;
        }
      }
    case _ => r := false;
  }

  method IsNull(v: Value, path: seq<string>) returns (r: bool)
    ensures r == EqualsNull(v, path)
    decreases |path|, v
  {
    if path == [] { return v.Null? || (v.Arr? && Null in v.items); }
    match v
    case Doc(fields) =>
      if path[0] in fields { r := IsNull(fields[path[0]], path[1..]); } else { r := true; }
    case Arr(items) =>
      r := false;
      for i := 0 to |items|
        invariant r == exists k :: 0 <= k < i && items[k].Doc? && EqualsNull(items[k], path)
      {
        if items[i].Doc? {
          var here := IsNull(items[i], path);
          r := r || here;
        }
      }
    case _ => r := true;
  }

  /** The recursion over the tree of one model. `ok` is false when it throws. Every declared path is
      queried, and what is marked besides `marked` is exactly what they mention. */
  method CheckFieldReferences(find: Finder, model: string, prefix: seq<string>, config: Ref, marked: set<string>)
    returns (ok: bool, out: set<string>)
    ensures ok <==> !config.Nothing? && (config.Nested? ==> !Breaks(find, model, prefix, config))
    ensures ok ==> forall id :: id in out <==> id in marked || (config.Nested? && Under(find, model, prefix, config, id))
    decreases config
  {
    ok, out := true, marked;
    if config.Nothing? { return false, marked; }
    if !config.Nested? { return; }
    var es := config.entries;
    for i := 0 to |es|
      invariant ok
      invariant forall k :: 0 <= k < i ==> !Breaks(find, model, prefix + es[k].name, es[k].value)
      invariant forall id :: id in out <==> id in marked || exists k :: 0 <= k < i && Under(find, model, prefix + es[k].name, es[k].value, id)
    {
      var path := prefix + es[i].name;
      if es[i].value.File? {
        FileLeaf(find, model, path);
        var docs := find(model, path);
        if docs.None? { BreaksNested(find, model, prefix, es); return false, out; }
        out := ScanField(docs.value, path, out);
      } else if es[i].value.Nested? || es[i].value.Nothing? {
        ok, out := CheckFieldReferences(find, model, path, es[i].value, out);
        if !ok { BreaksNested(find, model, prefix, es); return; }
      }
    }
    BreaksNested(find, model, prefix, es);
    forall id ensures Under(find, model, prefix, config, id) <==> exists k :: 0 <= k < |es| && Under(find, model, prefix + es[k].name, es[k].value, id) {
      UnderNested(find, model, prefix, es, id);
    }
  }

  lemma {:induction false} FileLeaf(find: Finder, model: string, path: seq<string>)
    ensures Breaks(find, model, path, File) <==> find(model, path).None?
    ensures forall id :: Under(find, model, path, File, id) <==> Mentioned(find, model, path, id)
  {
    var none: seq<string> := [];
    assert Declared(File, none) && path + none == path;
    forall p: seq<string> ensures Declared(File, p) <==> p == none {}
  }

  lemma {:induction false} DeclaredNested(es: seq<Entry>, k: nat, rest: seq<string>)
    requires k < |es|
    ensures Declared(es[k].value, rest) ==> Declared(Nested(es), es[k].name + rest)
  {
    assert es[k].name <= es[k].name + rest && (es[k].name + rest)[|es[k].name|..] == rest;
  }

  lemma {:induction false} UnderNested(find: Finder, model: string, prefix: seq<string>, es: seq<Entry>, id: string)
    ensures Under(find, model, prefix, Nested(es), id)
      <==> exists k :: 0 <= k < |es| && Under(find, model, prefix + es[k].name, es[k].value, id)
  {
    if path :| Declared(Nested(es), path) && Mentioned(find, model, prefix + path, id) {
      var k :| 0 <= k < |es| && es[k].name <= path && Declared(es[k].value, path[|es[k].name|..]);
      assert prefix + path == prefix + es[k].name + path[|es[k].name|..];
      assert Under(find, model, prefix + es[k].name, es[k].value, id);
    }
    if k :| 0 <= k < |es| && Under(find, model, prefix + es[k].name, es[k].value, id) {
      var rest :| Declared(es[k].value, rest) && Mentioned(find, model, prefix + es[k].name + rest, id);
      DeclaredNested(es, k, rest);
      assert prefix + (es[k].name + rest) == prefix + es[k].name + rest;
    }
  }

  lemma {:induction false} BreaksNested(find: Finder, model: string, prefix: seq<string>, es: seq<Entry>)
    ensures Breaks(find, model, prefix, Nested(es))
      <==> exists k :: 0 <= k < |es| && Breaks(find, model, prefix + es[k].name, es[k].value)
  {
    hide Mentioned, SeenIn, Seen, Matches, Exists, EqualsNull, Collected, NothingAt;
    if k :| 0 <= k < |es| && HasNull(es[k].value) { assert Breaks(find, model, prefix + es[k].name, es[k].value); }
    if path :| Declared(Nested(es), path) && find(model, prefix + path).None? {
      var k :| 0 <= k < |es| && es[k].name <= path && Declared(es[k].value, path[|es[k].name|..]);
      assert prefix + path == prefix + es[k].name + path[|es[k].name|..];
      assert Breaks(find, model, prefix + es[k].name, es[k].value);
    }
    if k :| 0 <= k < |es| && Breaks(find, model, prefix + es[k].name, es[k].value) && !HasNull(es[k].value) {
      var rest :| Declared(es[k].value, rest) && find(model, prefix + es[k].name + rest).None?;
      DeclaredNested(es, k, rest);
      assert prefix + (es[k].name + rest) == prefix + es[k].name + rest;
    }
  }

  // ----- one host

  /** An id is referenced when some entry of the reference file, whose model is loaded here, declares a
      path at which a document mentions it. */
  ghost predicate Referenced(refs: seq<RefConfig>, loaded: set<string>, find: Finder, id: string) {
    exists k :: 0 <= k < |refs| && refs[k].model in loaded && refs[k].tree.Nested?
      && Under(find, refs[k].model, [], refs[k].tree, id)
  }

  ghost predicate Throws(refs: seq<RefConfig>, loaded: set<string>, find: Finder) {
    exists k :: 0 <= k < |refs| && refs[k].model in loaded
      && (refs[k].tree.Nothing? || (refs[k].tree.Nested? && Breaks(find, refs[k].model, [], refs[k].tree)))
  }

  method ScanAll(refs: seq<RefConfig>, loaded: set<string>, find: Finder) returns (ok: bool, marked: set<string>)
    ensures ok <==> !Throws(refs, loaded, find)
    ensures ok ==> forall id :: id in marked <==> Referenced(refs, loaded, find, id)
  {
    ok, marked := true, {};
    for i := 0 to |refs|
      invariant ok && !Throws(refs[..i], loaded, find)
      invariant forall id :: id in marked <==> Referenced(refs[..i], loaded, find, id)
    {
      ghost var was := marked;
      assert refs[..i + 1] == refs[..i] + [refs[i]];
      if refs[i].model in loaded {
        ok, marked := CheckFieldReferences(find, refs[i].model, [], refs[i].tree, marked);
        if !ok { return; }
      }
      forall id ensures Referenced(refs[..i + 1], loaded, find, id) <==>
        Referenced(refs[..i], loaded, find, id)
        || (refs[i].model in loaded && refs[i].tree.Nested? && Under(find, refs[i].model, [], refs[i].tree, id))
      {
        ReferencedSnoc(refs[..i], refs[i], loaded, find, id);
      }
    }
    assert refs[..|refs|] == refs;
  }

  lemma {:induction false} ReferencedSnoc(refs: seq<RefConfig>, r: RefConfig, loaded: set<string>, find: Finder, id: string)
    ensures Referenced(refs + [r], loaded, find, id) <==>
      Referenced(refs, loaded, find, id) || (r.model in loaded && r.tree.Nested? && Under(find, r.model, [], r.tree, id))
  {
    var all := refs + [r];
    assert all[|refs|] == r;
    if k :| 0 <= k < |refs| && refs[k].model in loaded && refs[k].tree.Nested? && Under(find, refs[k].model, [], refs[k].tree, id) {
      assert all[k] == refs[k];
    }
  }

  datatype Outcome = NoModel | Empty | Aborted | Swept(orphans: set<string>)

  /** The File collection of one host and path. */
  class Files {
    var ids: set<string>

    constructor (ids: set<string>)
      ensures this.ids == ids
    {
      this.ids := ids;
    }

    /** Between the listing and the delete, other clients add `created` and take away `removed`. */
    method Clean(hasModel: bool, refs: seq<RefConfig>, loaded: set<string>, find: Finder, created: set<string>,
      removed: set<string>, dryRun: bool) returns (r: Outcome)
      requires created !! ids
      modifies this
      ensures ids == old(ids) - removed + created - (if r.Swept? && !dryRun then r.orphans else {})
      ensures r.Swept? ==> forall f :: f in r.orphans <==> f in old(ids) && !Referenced(refs, loaded, find, f)
      ensures created <= ids
      ensures r.Swept? <==> hasModel && old(ids) != {} && !Throws(refs, loaded, find)
    {
      var listed := ids;
      ids := ids - removed + created;
      if !hasModel { return NoModel; }
      if listed == {} { return Empty; }
      var ok, marked := ScanAll(refs, loaded, find);
      if !ok { return Aborted; }
      var orphans := set f | f in listed && f !in marked;
      if orphans != {} && !dryRun { ids := ids - orphans; }
      return Swept(orphans);
    }
  }

  // ----- what the marks mean

  /** An id is the printed form of this value: itself, or the only entry of an array, at any depth. */
  ghost predicate Denotes(v: Value, id: string) {
    v == Text(id) || (v.Arr? && |v.items| == 1 && Denotes(v.items[0], id))
  }

  /** An id that no composite value prints as; every File id, being hexadecimal, is one. */
  ghost predicate IdLike(id: string) {
    id != "" && ',' !in id && '[' !in id
  }

  lemma {:induction false} PrintsAsExactly(v: Value, id: string)
    requires IdLike(id)
    ensures Str(v) == id <==> Denotes(v, id)
    decreases v
  {
    match v
    case Null =>
    case Text(_) =>
    case Doc(_) =>
      var printed := "[object Object]";
      assert |printed| == 15 && printed[0] == '[';
      assert id == printed ==> '[' in id;
    case Arr(items) =>
      if |items| == 1 {
        PrintsAsExactly(items[0], id);
      } else if |items| > 1 {
        assert Str(v) == Str(items[0]) + "," + StrAll(items[1..]);
        assert Str(v)[|Str(items[0])|] == ',';
      }
  }

  lemma {:induction false} DenotedIsTruthy(v: Value, id: string)
    requires IdLike(id) && Denotes(v, id)
    ensures Truthy(v)
  {}

  /** The id stands at the end of the path: as the value, or as an entry of the array that is. */
  ghost predicate Holds(v: Option<Value>, id: string) {
    v.Some? && (Denotes(v.value, id) || (v.value.Arr? && exists i :: 0 <= i < |v.value.items| && Denotes(v.value.items[i], id)))
  }

  lemma {:induction false} ReachNone(path: seq<string>)
    ensures Reach(None, path) == None
    decreases |path|
  {
    if path != [] { ReachNone(path[1..]); }
  }

  lemma {:induction false} MatchesReached(v: Value, path: seq<string>)
    requires Reach(Some(v), path).Some?
    ensures Exists(v, path)
    ensures var w := Reach(Some(v), path).value; EqualsNull(v, path) <==> w.Null? || (w.Arr? && Null in w.items)
    decreases |path|
  {
    if path != [] {
      ReachNone(path[1..]);
      assert v.Doc? && path[0] in v.fields;
      MatchesReached(v.fields[path[0]], path[1..]);
    }
  }

  /** A document protects an id at a path exactly when the id stands there, through objects only, and
      the array it stands in, if any, has no null entry. */
  lemma {:induction false} SeenExactly(doc: Value, path: seq<string>, id: string)
    requires IdLike(id)
    ensures Seen(doc, path, id) <==>
      var v := Reach(Some(doc), path); Holds(v, id) && !(v.value.Arr? && Null in v.value.items)
  {
    var v := Reach(Some(doc), path);
    if v.Some? {
      MatchesReached(doc, path);
      PrintsAsExactly(v.value, id);
      if v.value.Arr? {
        var items := v.value.items;
        forall i | 0 <= i < |items| ensures Truthy(items[i]) && Str(items[i]) == id <==> Denotes(items[i], id) {
          PrintsAsExactly(items[i], id);
        }
      }
    }
  }

  /** A listed File survives the sweep exactly when, at a declared path of a loaded model, some
      document holds its id through objects in a value or in an array without a null. */
  lemma {:induction false} SurvivesExactly(refs: seq<RefConfig>, loaded: set<string>, find: Finder, id: string)
    requires IdLike(id)
    ensures Referenced(refs, loaded, find, id) <==>
      exists k, path, d :: Protects(refs, loaded, find, id, k, path, d)
  {
    if Referenced(refs, loaded, find, id) {
      var k :| 0 <= k < |refs| && refs[k].model in loaded && refs[k].tree.Nested? && Under(find, refs[k].model, [], refs[k].tree, id);
      var path :| Declared(refs[k].tree, path) && Mentioned(find, refs[k].model, [] + path, id);
      assert [] + path == path;
      var docs := find(refs[k].model, path).value;
      var d :| 0 <= d < |docs| && Seen(docs[d], path, id);
      SeenExactly(docs[d], path, id);
      assert Protects(refs, loaded, find, id, k, path, d);
    }
    if k, path, d :| Protects(refs, loaded, find, id, k, path, d) {
      SeenExactly(find(refs[k].model, path).value[d], path, id);
      assert [] + path == path;
      assert Mentioned(find, refs[k].model, [] + path, id);
    }
  }

  ghost predicate Protects(refs: seq<RefConfig>, loaded: set<string>, find: Finder, id: string, k: int, path: seq<string>, d: int) {
    0 <= k < |refs| && refs[k].model in loaded && refs[k].tree.Nested? && Declared(refs[k].tree, path)
    && find(refs[k].model, path).Some? && 0 <= d < |find(refs[k].model, path).value| &&
    var v := Reach(Some(find(refs[k].model, path).value[d]), path);
    Holds(v, id) && !(v.value.Arr? && Null in v.value.items)
  }

  // ----- what they miss

  /** One null entry in a list of references drops the document from the query, so the Files the rest
      of the list names count as orphans. */
  lemma {:induction false} NullEntryLosesTheRest(field: string, id: string)
    requires IdLike(id)
    ensures var doc := Doc(map[field := Arr([Null, Text(id)])]);
      Holds(Reach(Some(doc), [field]), id) && !Seen(doc, [field], id)
  {
    var list := Arr([Null, Text(id)]);
    var doc := Doc(map[field := list]);
    ReachField(doc, field);
    assert Denotes(list.items[1], id) && list.items[0] == Null;
    SeenExactly(doc, [field], id);
  }

  lemma {:induction false} ReachField(doc: Value, field: string)
    ensures Reach(Some(doc), [field]) == Property(Some(doc), field)
  {
    assert [field][1..] == [];
  }

  lemma {:induction false} ReachSplit(v: Option<Value>, a: seq<string>, b: seq<string>)
    ensures Reach(v, a + b) == Reach(Reach(v, a), b)
    decreases |a|
  {
    if a == [] {
      assert a + b == b;
    } else {
      assert (a + b)[0] == a[0] && (a + b)[1..] == a[1..] + b;
      ReachSplit(Property(v, a[0]), a[1..], b);
    }
  }

  /** Below an array on the way nothing is ever seen. */
  lemma {:induction false} BelowAnArrayNothingIsSeen(doc: Value, prefix: seq<string>, rest: seq<string>, id: string)
    requires rest != [] && Reach(Some(doc), prefix).Some? && Reach(Some(doc), prefix).value.Arr?
    ensures !Seen(doc, prefix + rest, id)
  {
    ReachSplit(Some(doc), prefix, rest);
    ReachNone(rest[1..]);
  }

  /** Although the database does find a document whose array of sub-documents names the id. */
  lemma {:induction false} ArrayOfDocumentsIsMissed(field: string, part: string, id: string)
    requires IdLike(id)
    ensures var doc := Doc(map[field := Arr([Doc(map[part := Text(id)])])]);
      Matches(doc, [field, part]) && !Seen(doc, [field, part], id)
  {
    var sub := Doc(map[part := Text(id)]);
    var list := Arr([sub]);
    var doc := Doc(map[field := list]);
    ReachField(sub, part);
    MatchesReached(sub, [part]);
    assert list.items[0] == sub && Exists(list, [part]) && !EqualsNull(list, [part]);
    assert [field, part][1..] == [part];
    ReachField(doc, field);
    assert [field] + [part] == [field, part];
    BelowAnArrayNothingIsSeen(doc, [field], [part], id);
  }
}
