/** Installing and uninstalling marked array elements in a JSON document. */
module Mutate {
  import opened Prelude
  import opened Json
  import JsonPointer

  datatype Operation = EnsureMarkedArrayElement(
    pointer: string, markerKey: string, markerValue: string, element: Value)
  {
    function Path(): seq<string> {
      JsonPointer.Segments(pointer)
    }

    /** The element can be found again by its own marker. */
    predicate CarriesOwnMarker() {
      HasMarker(element, markerKey, markerValue)
    }
  }

  /** Why an operation is refused; nothing is ever overwritten instead. */
  datatype Refusal = RootPointer | PrefixNotObject | TerminalNotArray

  predicate HasMarker(e: Value, key: string, value: string) {
    GetStr(e, key) == Some(value)
  }

  predicate AnyMarked(items: seq<Value>, key: string, value: string) {
    exists i | 0 <= i < |items| :: HasMarker(items[i], key, value)
  }

  /** The unmarked elements, in order. */
  function Retain(items: seq<Value>, key: string, value: string): seq<Value> {
    if items == [] then []
    else (if HasMarker(items[0], key, value) then [] else [items[0]]) + Retain(items[1..], key, value)
  }

  function FieldOr(fields: map<string, Value>, key: string, default: Value): Value {
    if key in fields then fields[key] else default
  }

  /** Walks to the array at `path`, creating missing objects on the way, and appends `element`
      unless a marked element is already there. */
  function Ensure(doc: Value, path: seq<string>, key: string, value: string, element: Value): Result<Value, Refusal>
    decreases |path|
  {
    if path == [] then Err(RootPointer)
    else if !doc.Obj? then Err(PrefixNotObject)
    else if |path| == 1 then
      var target := FieldOr(doc.fields, path[0], EMPTY_ARRAY);
      if !target.Arr? then Err(TerminalNotArray)
      else if AnyMarked(target.items, key, value) then Ok(Obj(doc.fields[path[0] := target]))
      else Ok(Obj(doc.fields[path[0] := Arr(target.items + [element])]))
    else
      match Ensure(FieldOr(doc.fields, path[0], EMPTY_OBJECT), path[1..], key, value, element)
      case Err(e) => Err(e)
      case Ok(child) => Ok(Obj(doc.fields[path[0] := child]))
  }

  /** Drops the marked elements of the array at `path`, and every container on the path that is
      then empty. */
  function RemoveMarked(doc: Value, path: seq<string>, key: string, value: string): (r: Value)
    ensures if doc.Obj? then r.Obj? && r.fields.Keys <= doc.fields.Keys else r == doc
    decreases |path|, 0
  {
    if path == [] || !doc.Obj? || path[0] !in doc.fields then doc
    else
      match Surviving(doc.fields[path[0]], path[1..], key, value)
      case None => Obj(doc.fields - {path[0]})
      case Some(child) => Obj(doc.fields[path[0] := child])
  }

  /** What a removal below a key leaves at that key: nothing, when it leaves an empty container. */
  function Surviving(child: Value, rest: seq<string>, key: string, value: string): Option<Value>
    decreases |rest|, 1
  {
    if rest == [] then
      if !child.Arr? then Some(child)
      else
        var kept := Retain(child.items, key, value);
        if kept == [] then None else Some(Arr(kept))
    else
      var left := RemoveMarked(child, rest, key, value);
      if left == EMPTY_OBJECT then None else Some(left)
  }

  function ApplyOne(doc: Value, op: Operation): Result<Value, Refusal> {
    Ensure(doc, op.Path(), op.markerKey, op.markerValue, op.element)
  }

  function RevertOne(doc: Value, op: Operation): Value {
    RemoveMarked(doc, op.Path(), op.markerKey, op.markerValue)
  }

  function Apply(doc: Value, ops: seq<Operation>): Result<Value, Refusal>
    decreases |ops|
  {
    if ops == [] then Ok(doc)
    else
      match ApplyOne(doc, ops[0])
      case Err(e) => Err(e)
      case Ok(next) => Apply(next, ops[1..])
  }

  function Revert(doc: Value, ops: seq<Operation>): Value
    decreases |ops|
  {
    if ops == [] then doc else Revert(RevertOne(doc, ops[0]), ops[1..])
  }

  predicate OwnMarkers(ops: seq<Operation>) {
    forall i | 0 <= i < |ops| :: ops[i].CarriesOwnMarker()
  }

  // ----- the loops of the two entry points

  /** The first refused operation stops the run and the document it was working on is discarded. */
  method ApplyDocument(document: Value, operations: seq<Operation>) returns (r: Result<Value, Refusal>)
    ensures r == Apply(document, operations)
  {
    var doc := document;
    for i := 0 to |operations|
      invariant Apply(doc, operations[i..]) == Apply(document, operations)
    {
      assert operations[i..][1..] == operations[i + 1..];
      match ApplyOne(doc, operations[i]) {
        case Err(e) => return Err(e);
        case Ok(next) => doc := next;
      }
    }
    r := Ok(doc);
  }

  method RevertDocument(document: Value, operations: seq<Operation>) returns (doc: Value)
    ensures doc == Revert(document, operations)
  {
    doc := document;
    for i := 0 to |operations|
      invariant Revert(doc, operations[i..]) == Revert(document, operations)
    {
      assert operations[i..][1..] == operations[i + 1..];
      var path := operations[i].Path();
      if path == [] {
        continue;
      }
      doc := RemoveMarked(doc, path, operations[i].markerKey, operations[i].markerValue);
    }
  }

  // ----- the retained elements

  lemma {:induction false} RetainAppend(a: seq<Value>, b: seq<Value>, key: string, value: string)
    ensures Retain(a + b, key, value) == Retain(a, key, value) + Retain(b, key, value)
  {
    if a == [] {
      assert a + b == b;
    } else {
      assert (a + b)[1..] == a[1..] + b;
      RetainAppend(a[1..], b, key, value);
    }
  }

  lemma {:induction false} RetainCommutes(a: seq<Value>, k: string, v: string, l: string, w: string)
    ensures Retain(Retain(a, k, v), l, w) == Retain(Retain(a, l, w), k, v)
  {
    if a != [] {
      var tail := a[1..];
      RetainCommutes(tail, k, v, l, w);
      var x, y := Retain([a[0]], k, v), Retain([a[0]], l, w);
      assert a == [a[0]] + tail;
      RetainAppend([a[0]], tail, k, v);
      RetainAppend([a[0]], tail, l, w);
      RetainAppend(x, Retain(tail, k, v), l, w);
      RetainAppend(y, Retain(tail, l, w), k, v);
    }
  }

  lemma {:induction false} RetainFixed(a: seq<Value>, k: string, v: string)
    ensures |Retain(a, k, v)| <= |a|
    ensures Retain(a, k, v) == a <==> !AnyMarked(a, k, v)
    ensures !AnyMarked(Retain(a, k, v), k, v)
  {
    if a != [] {
      RetainFixed(a[1..], k, v);
      var kept := Retain(a[1..], k, v);
      if HasMarker(a[0], k, v) {
        assert AnyMarked(a, k, v);
      } else {
        assert Retain(a, k, v)[1..] == kept;
        assert a == [a[0]] + a[1..];
        assert AnyMarked(a[1..], k, v) ==> AnyMarked(a, k, v) by {
          if i :| 0 <= i < |a[1..]| && HasMarker(a[1..][i], k, v) {
            assert HasMarker(a[i + 1], k, v);
          }
        }
        assert AnyMarked(a, k, v) ==> AnyMarked(a[1..], k, v) by {
          if i :| 0 <= i < |a| && HasMarker(a[i], k, v) {
            assert HasMarker(a[1..][i - 1], k, v);
          }
        }
      }
    }
  }

  // ----- one operation against one operation

  /** Removals below one key commute there: whichever comes first, the same is left. */
  lemma {:induction false} SurvivorsCommute(c: Value, p: seq<string>, k: string, v: string, q: seq<string>, l: string,
                                            w: string)
    ensures Then(Surviving(c, p, k, v), q, l, w) == Then(Surviving(c, q, l, w), p, k, v)
    decreases |p|, 1
  {
    if p == [] && q == [] {
      if c.Arr? {
        RetainCommutes(c.items, k, v, l, w);
      }
    } else if p != [] && q != [] {
      RemovalsCommute(c, p, k, v, q, l, w);
      assert RemoveMarked(EMPTY_OBJECT, p, k, v) == EMPTY_OBJECT == RemoveMarked(EMPTY_OBJECT, q, l, w);
    }
  }

  /** A second removal below a key, where the first one left something to remove from. */
  function Then(left: Option<Value>, rest: seq<string>, key: string, value: string): Option<Value> {
    match left
    case None => None
    case Some(child) => Surviving(child, rest, key, value)
  }

  /** Removals commute, whatever the two paths: equal, nested or apart. */
  lemma {:induction false} RemovalsCommute(d: Value, p: seq<string>, k: string, v: string, q: seq<string>, l: string,
                                           w: string)
    ensures RemoveMarked(RemoveMarked(d, p, k, v), q, l, w) == RemoveMarked(RemoveMarked(d, q, l, w), p, k, v)
    decreases |p|, 0
  {
    if p != [] && q != [] && d.Obj? && p[0] in d.fields && q[0] in d.fields {
      if p[0] == q[0] {
        SurvivorsCommute(d.fields[p[0]], p[1..], k, v, q[1..], l, w);
      } else {
        assert d.fields - {p[0]} - {q[0]} == d.fields - {q[0]} - {p[0]};
      }
    }
  }

  /** Removing right after ensuring is as good as removing without it. */
  lemma {:induction false} RemoveAfterEnsure(d: Value, p: seq<string>, k: string, v: string, e: Value)
    requires HasMarker(e, k, v)
    requires Ensure(d, p, k, v, e).Ok?
    ensures RemoveMarked(Ensure(d, p, k, v, e).value, p, k, v) == RemoveMarked(d, p, k, v)
    decreases |p|
  {
    var after := Ensure(d, p, k, v, e).value;
    assert p[0] !in d.fields ==> after.fields - {p[0]} == d.fields;
    if |p| == 1 {
      var target := FieldOr(d.fields, p[0], EMPTY_ARRAY);
      RetainAppend(target.items, [e], k, v);
      assert Retain([e], k, v) == [] && Retain(target.items + [e], k, v) == Retain(target.items, k, v);
      assert Surviving(after.fields[p[0]], [], k, v) == Surviving(target, [], k, v);
    } else {
      RemoveAfterEnsure(FieldOr(d.fields, p[0], EMPTY_OBJECT), p[1..], k, v, e);
      assert RemoveMarked(EMPTY_OBJECT, p[1..], k, v) == EMPTY_OBJECT;
    }
  }
}
