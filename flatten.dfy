/**
 * `parseToFlattenedMap`: a decoded locale document becomes a map from dotted
 * key to message text. Each object key loses its dots and surrounding
 * whitespace and is joined to its parent's key with a dot; primitive leaves
 * are copied verbatim; any other leaf aborts the run.
 */
module Flattening {
  import opened Outcomes
  import opened KotlinText
  import opened OrderedMaps

  /**
   * A decoded JSON element. `Primitive` stands for every JSON primitive (string,
   * number, boolean, null) and holds its `content` text.
   */
  datatype Json = Object(fields: seq<(string, Json)>) | Primitive(content: string) | Array(items: seq<Json>)

  /** Dotted key to raw message text, in insertion order. */
  type FlatMap = OMap<string, string>

  /** The key contributed by one object member: its dots removed, then trimmed. */
  function Segment(name: string): string {
    Trim(ReplaceAll(name, ".", ""))
  }

  /** A member's full key: no prefix while the parent key is empty. */
  function FullKey(parent: string, segment: string): string {
    if parent == [] then segment else parent + "." + segment
  }

  /**
   * The flattening of members `i..` of `obj` written into `acc`, as the source's
   * loop does it: a nested object is flattened on its own and copied in with
   * `putAll`, a primitive is written under its key, an array fails.
   */
  function FlattenFrom(obj: Json, parent: string, i: nat, acc: FlatMap): (r: Result<FlatMap>)
    requires obj.Object? && i <= |obj.fields| && Valid(acc)
    ensures r.Ok? ==> Valid(r.value)
    decreases obj, |obj.fields| - i
  {
    if i == |obj.fields| then Ok(acc)
    else
      var name := obj.fields[i].0;
      var value := obj.fields[i].1;
      var key := FullKey(parent, Segment(name));
      match value
      case Object(_) =>
        (match FlattenFrom(value, key, 0, Empty())
         case Err(e) => Err(e)
         case Ok(sub) =>
           PutItemsValid(acc, Items(sub));
           FlattenFrom(obj, parent, i + 1, PutAll(acc, sub)))
      case Primitive(content) =>
        PutValid(acc, key, content);
        FlattenFrom(obj, parent, i + 1, Put(acc, key, content))
      case Array(_) => Err(MalformedInput)
  }

  /** The flattening of a whole locale document; a root that is not an object is malformed. */
  function Flatten(root: Json): (r: Result<FlatMap>)
    ensures r.Ok? ==> Valid(r.value)
    ensures !root.Object? ==> r == Err(MalformedInput)
  {
    if root.Object? then FlattenFrom(root, "", 0, Empty()) else Err(MalformedInput)
  }

  /** `parseToFlattenedMap(jsonObj, parentKey)`. */
  method FlattenObject(obj: Json, parentKey: string) returns (r: Result<FlatMap>)
    requires obj.Object?
    ensures r == FlattenFrom(obj, parentKey, 0, Empty())
    decreases obj, 1
  {
    var result: FlatMap := Empty();
    var i := 0;
    while i < |obj.fields|
      invariant 0 <= i <= |obj.fields| && Valid(result)
      invariant FlattenFrom(obj, parentKey, i, result) == FlattenFrom(obj, parentKey, 0, Empty())
      decreases |obj.fields| - i
    {
      var next := FlattenMember(obj, parentKey, i, result);
      if next.Err? {
        return next;
      }
      result := next.value;
      i := i + 1;
    }
    return Ok(result);
  }

  /**
   * The body of `parseToFlattenedMap`'s loop for member `i`: the member's key is
   * built, then a nested object is flattened and copied in, a primitive is
   * written, and an array fails.
   */
  method FlattenMember(obj: Json, parentKey: string, i: nat, result: FlatMap) returns (next: Result<FlatMap>)
    requires obj.Object? && i < |obj.fields| && Valid(result)
    ensures next.Err? ==> FlattenFrom(obj, parentKey, i, result) == next
    ensures next.Ok? ==> Valid(next.value) && FlattenFrom(obj, parentKey, i, result) == FlattenFrom(obj, parentKey, i + 1, next.value)
    decreases obj, 0
  {
    var keyInObj := obj.fields[i].0;
    var value := obj.fields[i].1;
    var key := Segment(keyInObj);
    var fullKey := if parentKey == [] then key else parentKey + "." + key;
    assert fullKey == FullKey(parentKey, Segment(obj.fields[i].0));
    match value {
      case Object(_) =>
        var sub := FlattenObject(value, fullKey);
        if sub.Err? {
          return Err(sub.error);
        }
        PutItemsValid(result, Items(sub.value));
        return Ok(PutAll(result, sub.value));
      case Primitive(content) =>
        PutValid(result, fullKey, content);
        return Ok(Put(result, fullKey, content));
      case Array(_) =>
        return Err(MalformedInput);
    }
  }

  // ---------------------------------------------------------------------------
  // A reference description: the primitive leaves in document order, each with
  // the key segments on its path.

  type Leaf = (seq<string>, string)

  function Under(segment: string, leaves: seq<Leaf>): (r: seq<Leaf>)
    ensures |r| == |leaves|
    ensures forall j :: 0 <= j < |r| ==> r[j] == ([segment] + leaves[j].0, leaves[j].1)
  {
    seq(|leaves|, j requires 0 <= j < |leaves| => ([segment] + leaves[j].0, leaves[j].1))
  }

  /** The leaves below members `i..` of `obj`; fails when an array is reachable. */
  function LeavesFrom(obj: Json, i: nat): Result<seq<Leaf>>
    requires obj.Object? && i <= |obj.fields|
    decreases obj, |obj.fields| - i
  {
    if i == |obj.fields| then Ok([])
    else
      var segment := Segment(obj.fields[i].0);
      var value := obj.fields[i].1;
      var here: Result<seq<Leaf>> :=
        match value
        case Object(_) => (match LeavesFrom(value, 0) case Err(e) => Err(e) case Ok(ls) => Ok(Under(segment, ls)))
        case Primitive(content) => Ok([([segment], content)])
        case Array(_) => Err(MalformedInput);
      match here
      case Err(e) => Err(e)
      case Ok(ls) => (match LeavesFrom(obj, i + 1) case Err(e) => Err(e) case Ok(rest) => Ok(ls + rest))
  }

  /** The key reached from `parent` through the segments `path`. */
  function JoinKey(parent: string, path: seq<string>): string
    decreases |path|
  {
    if path == [] then parent else JoinKey(FullKey(parent, path[0]), path[1..])
  }

  function Keyed(parent: string, leaves: seq<Leaf>): (r: seq<(string, string)>)
    ensures |r| == |leaves|
    ensures forall j :: 0 <= j < |r| ==> r[j] == (JoinKey(parent, leaves[j].0), leaves[j].1)
  {
    seq(|leaves|, j requires 0 <= j < |leaves| => (JoinKey(parent, leaves[j].0), leaves[j].1))
  }

  lemma KeyedUnder(parent: string, segment: string, leaves: seq<Leaf>)
    ensures Keyed(parent, Under(segment, leaves)) == Keyed(FullKey(parent, segment), leaves)
  {
    var a := Keyed(parent, Under(segment, leaves));
    var b := Keyed(FullKey(parent, segment), leaves);
    forall j | 0 <= j < |leaves| ensures a[j] == b[j] {
      var p := [segment] + leaves[j].0;
      assert p[0] == segment && p[1..] == leaves[j].0;
    }
  }

  lemma KeyedAppend(parent: string, xs: seq<Leaf>, ys: seq<Leaf>)
    ensures Keyed(parent, xs + ys) == Keyed(parent, xs) + Keyed(parent, ys)
  {
    var a := Keyed(parent, xs + ys);
    var b := Keyed(parent, xs) + Keyed(parent, ys);
    forall j | 0 <= j < |a| ensures a[j] == b[j] {
      if j < |xs| {
        assert (xs + ys)[j] == xs[j];
      } else {
        assert (xs + ys)[j] == ys[j - |xs|];
      }
    }
  }

  lemma WritesObjectMember(acc: FlatMap, key: string, ls: seq<Leaf>, rest: seq<(string, string)>)
    requires Valid(acc)
    ensures Valid(PutItems(Empty(), Keyed(key, ls)))
    ensures PutItems(PutAll(acc, PutItems(Empty(), Keyed(key, ls))), rest) == PutItems(acc, Keyed(key, ls) + rest)
  {
    PutAllOfPutItems(acc, Keyed(key, ls));
    PutItemsAppend(acc, Keyed(key, ls), rest);
  }

  /**
   * Flattening equals writing every leaf, in document order, under its key:
   * the recursion with `putAll` loses and reorders nothing, and a later leaf with
   * the same key overwrites an earlier one.
   */
  lemma {:induction false} FlattenFromWritesLeaves(obj: Json, parent: string, i: nat, acc: FlatMap)
    requires obj.Object? && i <= |obj.fields| && Valid(acc)
    ensures FlattenFrom(obj, parent, i, acc).Ok? <==> LeavesFrom(obj, i).Ok?
    ensures LeavesFrom(obj, i).Ok? ==>
      FlattenFrom(obj, parent, i, acc).value == PutItems(acc, Keyed(parent, LeavesFrom(obj, i).value))
    decreases obj, |obj.fields| - i, 1
  {
    if i < |obj.fields| {
      var segment := Segment(obj.fields[i].0);
      var value := obj.fields[i].1;
      var key := FullKey(parent, segment);
      match value
      case Object(_) =>
        ObjectMemberWritesLeaves(obj, parent, i, acc);
      case Primitive(content) =>
        PutValid(acc, key, content);
        FlattenFromWritesLeaves(obj, parent, i + 1, Put(acc, key, content));
        if LeavesFrom(obj, i + 1).Ok? {
          var rest := LeavesFrom(obj, i + 1).value;
          KeyedAppend(parent, [([segment], content)], rest);
          assert [segment][1..] == [];
          assert JoinKey(parent, [segment]) == key;
          assert Keyed(parent, [([segment], content)]) == [(key, content)];
        }
      case Array(_) =>
    }
  }

  /** The step of `FlattenFromWritesLeaves` for a member holding a nested object. */
  lemma {:induction false} ObjectMemberWritesLeaves(obj: Json, parent: string, i: nat, acc: FlatMap)
    requires obj.Object? && i < |obj.fields| && obj.fields[i].1.Object? && Valid(acc)
    ensures FlattenFrom(obj, parent, i, acc).Ok? <==> LeavesFrom(obj, i).Ok?
    ensures LeavesFrom(obj, i).Ok? ==>
      FlattenFrom(obj, parent, i, acc).value == PutItems(acc, Keyed(parent, LeavesFrom(obj, i).value))
    decreases obj, |obj.fields| - i, 0
  {
    var segment := Segment(obj.fields[i].0);
    var value := obj.fields[i].1;
    var key := FullKey(parent, segment);
    FlattenFromWritesLeaves(value, key, 0, Empty());
    if LeavesFrom(value, 0).Ok? {
      var ls := LeavesFrom(value, 0).value;
      var sub := FlattenFrom(value, key, 0, Empty()).value;
      PutItemsValid(acc, Items(sub));
      var next := PutAll(acc, sub);
      assert FlattenFrom(obj, parent, i, acc) == FlattenFrom(obj, parent, i + 1, next);
      FlattenFromWritesLeaves(obj, parent, i + 1, next);
      if LeavesFrom(obj, i + 1).Ok? {
        var rest := LeavesFrom(obj, i + 1).value;
        assert LeavesFrom(obj, i).value == Under(segment, ls) + rest;
        KeyedAppend(parent, Under(segment, ls), rest);
        KeyedUnder(parent, segment, ls);
        WritesObjectMember(acc, key, ls, Keyed(parent, rest));
      }
    }
  }

  /**
   * The flattened document: a key is present exactly when some leaf's path leads
   * to it, and it holds the content of the last such leaf.
   */
  lemma FlattenByLeaves(root: Json)
    requires root.Object?
    ensures Flatten(root).Ok? <==> LeavesFrom(root, 0).Ok?
    ensures Flatten(root).Ok? ==>
      var m := Flatten(root).value;
      var ls := LeavesFrom(root, 0).value;
      && (forall k :: k in m.values <==> exists j :: 0 <= j < |ls| && JoinKey("", ls[j].0) == k)
      && (forall j :: 0 <= j < |ls| && (forall l :: j < l < |ls| ==> JoinKey("", ls[l].0) != JoinKey("", ls[j].0))
            ==> m.values[JoinKey("", ls[j].0)] == ls[j].1)
  {
    var e: FlatMap := Empty();
    FlattenFromWritesLeaves(root, "", 0, e);
    if LeavesFrom(root, 0).Ok? {
      var ls := LeavesFrom(root, 0).value;
      PutItemsValues(e, Keyed("", ls));
      KeyedOverride(ls);
    }
  }

  /** Writing keyed leaves into an empty map keeps exactly their keys, each with its last leaf's content. */
  lemma KeyedOverride(ls: seq<Leaf>)
    ensures var mv := Override(map[], Keyed("", ls));
      && (forall k :: k in mv <==> exists j :: 0 <= j < |ls| && JoinKey("", ls[j].0) == k)
      && (forall j :: 0 <= j < |ls| && (forall l :: j < l < |ls| ==> JoinKey("", ls[l].0) != JoinKey("", ls[j].0))
            ==> mv[JoinKey("", ls[j].0)] == ls[j].1)
  {
    var xs := Keyed("", ls);
    var mv := Override(map[], xs);
    OverrideKeys(map[], xs);
    forall k ensures k in mv <==> exists j :: 0 <= j < |ls| && JoinKey("", ls[j].0) == k {
      if k in mv {
        assert k in KeysOf(xs);
        var j :| 0 <= j < |xs| && KeysOf(xs)[j] == k;
        assert JoinKey("", ls[j].0) == k;
      }
      if exists j :: 0 <= j < |ls| && JoinKey("", ls[j].0) == k {
        var j :| 0 <= j < |ls| && JoinKey("", ls[j].0) == k;
        assert KeysOf(xs)[j] == k;
      }
    }
    forall j | 0 <= j < |ls| && (forall l :: j < l < |ls| ==> JoinKey("", ls[l].0) != JoinKey("", ls[j].0))
      ensures mv[JoinKey("", ls[j].0)] == ls[j].1
    {
      OverrideLast(map[], xs, j);
    }
  }

  /** Every leaf path is non-empty and is made of dot-free segments. */
  lemma {:induction false} LeafPaths(obj: Json, i: nat)
    requires obj.Object? && i <= |obj.fields| && LeavesFrom(obj, i).Ok?
    ensures forall j :: 0 <= j < |LeavesFrom(obj, i).value| ==> LeavesFrom(obj, i).value[j].0 != []
    ensures forall j, s :: 0 <= j < |LeavesFrom(obj, i).value| && s in LeavesFrom(obj, i).value[j].0 ==> '.' !in s
    decreases obj, |obj.fields| - i
  {
    if i < |obj.fields| {
      var name := obj.fields[i].0;
      var value := obj.fields[i].1;
      SegmentHasNoDot(name);
      LeafPaths(obj, i + 1);
      if value.Object? {
        LeafPaths(value, 0);
      }
    }
  }

  /** The text that follows a non-empty parent key: `.s1.….sn`. */
  function DottedSuffix(path: seq<string>): string
    decreases |path|
  {
    if path == [] then "" else "." + path[0] + DottedSuffix(path[1..])
  }

  /** Under a non-empty parent the key of segments `s1..sn` is `parent.s1.….sn`. */
  lemma {:induction false} JoinKeyShape(parent: string, path: seq<string>)
    requires parent != []
    ensures JoinKey(parent, path) == parent + DottedSuffix(path)
    decreases |path|
  {
    if path != [] {
      var next := parent + "." + path[0];
      JoinKeyShape(next, path[1..]);
      assert next + DottedSuffix(path[1..]) == parent + ("." + path[0] + DottedSuffix(path[1..]));
    }
  }

  /** A segment holds no dot. */
  lemma SegmentHasNoDot(name: string)
    ensures '.' !in Segment(name)
  {
    RemoveCharFacts(name, '.');
    var r := ReplaceAll(name, ".", "");
    assert "." == ['.'] && "" == [];
    TrimFacts(r);
  }

  /** Keys grown by dot-free segments from a parent that does not start with a dot never start with one. */
  lemma {:induction false} JoinKeyNoLeadingDot(parent: string, path: seq<string>)
    requires parent == [] || parent[0] != '.'
    requires forall s :: s in path ==> '.' !in s
    ensures JoinKey(parent, path) == [] || JoinKey(parent, path)[0] != '.'
    decreases |path|
  {
    if path != [] {
      var seg := path[0];
      assert seg in path;
      if parent == [] && seg != [] {
        assert seg[0] in seg;
      }
      JoinKeyNoLeadingDot(FullKey(parent, seg), path[1..]);
    }
  }

  /** No flattened key starts with a dot. */
  lemma FlattenNoLeadingDot(root: Json)
    requires root.Object? && Flatten(root).Ok?
    ensures forall k :: k in Flatten(root).value.values ==> k == [] || k[0] != '.'
  {
    FlattenByLeaves(root);
    LeafPaths(root, 0);
    var ls := LeavesFrom(root, 0).value;
    forall j | 0 <= j < |ls| ensures JoinKey("", ls[j].0) == [] || JoinKey("", ls[j].0)[0] != '.' {
      JoinKeyNoLeadingDot("", ls[j].0);
    }
  }

  // ---------------------------------------------------------------------------
  // Dots in member names do not matter.

  function StripFields(fields: seq<(string, Json)>, owner: Json): (r: seq<(string, Json)>)
    requires forall k :: 0 <= k < |fields| ==> fields[k].1 < owner
    ensures |r| == |fields|
    ensures forall k :: 0 <= k < |r| ==> r[k] == (ReplaceAll(fields[k].0, ".", ""), StripDots(fields[k].1))
    decreases owner, 0
  {
    seq(|fields|, k requires 0 <= k < |fields| => (ReplaceAll(fields[k].0, ".", ""), StripDots(fields[k].1)))
  }

  /** The same tree with every dot removed from every member name. */
  function StripDots(j: Json): (r: Json)
    ensures r.Object? <==> j.Object?
    ensures r.Primitive? <==> j.Primitive?
    ensures j.Primitive? ==> r == j
    decreases j, 1
  {
    match j
    case Object(fields) =>
      assert forall k :: 0 <= k < |fields| ==> fields[k].1 < j by {
        forall k | 0 <= k < |fields| ensures fields[k].1 < j {
          assert fields[k] in fields;
        }
      }
      Object(StripFields(fields, j))
    case _ => j
  }

  lemma SegmentIgnoresDots(name: string)
    ensures Segment(ReplaceAll(name, ".", "")) == Segment(name)
  {
    assert "." == ['.'] && "" == [];
    RemoveCharFacts(name, '.');
    RemoveCharFacts(ReplaceAll(name, ".", ""), '.');
  }

  lemma {:induction false} StripDotsFlattenFrom(obj: Json, parent: string, i: nat, acc: FlatMap)
    requires obj.Object? && i <= |obj.fields| && Valid(acc)
    ensures FlattenFrom(StripDots(obj), parent, i, acc) == FlattenFrom(obj, parent, i, acc)
    decreases obj, |obj.fields| - i
  {
    var s := StripDots(obj);
    if i < |obj.fields| {
      var name := obj.fields[i].0;
      var value := obj.fields[i].1;
      assert s.fields[i] == (ReplaceAll(name, ".", ""), StripDots(value));
      SegmentIgnoresDots(name);
      var key := FullKey(parent, Segment(name));
      match value
      case Object(_) =>
        StripDotsFlattenFrom(value, key, 0, Empty());
        var sub := FlattenFrom(value, key, 0, Empty());
        if sub.Ok? {
          PutItemsValid(acc, Items(sub.value));
          StripDotsFlattenFrom(obj, parent, i + 1, PutAll(acc, sub.value));
        }
      case Primitive(content) =>
        PutValid(acc, key, content);
        StripDotsFlattenFrom(obj, parent, i + 1, Put(acc, key, content));
      case Array(_) =>
    }
  }

  /** Flattening a document is unchanged by first removing the dots from its member names. */
  lemma StripDotsFlatten(root: Json)
    ensures Flatten(StripDots(root)) == Flatten(root)
  {
    if root.Object? {
      StripDotsFlattenFrom(root, "", 0, Empty());
    }
  }
}
