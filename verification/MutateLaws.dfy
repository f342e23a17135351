/** What installing and uninstalling do to a document, over whole operation lists. */
module MutateLaws {
  import opened Prelude
  import opened Lists
  import opened Json
  import opened Mutate

  // ----- uninstalling undoes installing

  /** One removal moves freely through a list of them. */
  lemma {:induction false} RevertSwap(d: Value, op: Operation, ops: seq<Operation>)
    ensures Revert(RevertOne(d, op), ops) == RevertOne(Revert(d, ops), op)
    decreases |ops|
  {
    if ops != [] {
      var o := ops[0];
      RemovalsCommute(d, op.Path(), op.markerKey, op.markerValue, o.Path(), o.markerKey, o.markerValue);
      RevertSwap(RevertOne(d, o), op, ops[1..]);
    }
  }

  lemma {:induction false} RevertAppend(d: Value, a: seq<Operation>, b: seq<Operation>)
    ensures Revert(d, a + b) == Revert(Revert(d, a), b)
    decreases |a|
  {
    if a == [] {
      assert a + b == b;
    } else {
      assert (a + b)[1..] == a[1..] + b;
      RevertAppend(RevertOne(d, a[0]), a[1..], b);
    }
  }

  lemma {:induction false} RevertFirst(d: Value, ops: seq<Operation>, j: nat)
    requires j < |ops|
    ensures Revert(d, ops) == Revert(RevertOne(d, ops[j]), ops[..j] + ops[j + 1..])
  {
    var o, before, after := ops[j], ops[..j], ops[j + 1..];
    assert ops == before + ([o] + after) && ([o] + after)[1..] == after;
    RevertAppend(d, before, [o] + after);
    RevertSwap(d, o, before);
    RevertAppend(RevertOne(d, o), before, after);
  }

  /** Any order of the same operations uninstalls to the same document. */
  lemma {:induction false} RevertInAnyOrder(d: Value, a: seq<Operation>, b: seq<Operation>)
    requires multiset(a) == multiset(b)
    ensures Revert(d, a) == Revert(d, b)
    decreases |a|
  {
    assert |multiset(a)| == |a| && |multiset(b)| == |b|;
    if a != [] {
      var j := MatchFirst(a, b);
      RevertFirst(d, b, j);
      RevertInAnyOrder(RevertOne(d, a[0]), a[1..], b[..j] + b[j + 1..]);
    }
  }

  /** Uninstalling what was installed leaves what uninstalling alone would have left. */
  lemma {:induction false} RevertOfApply(d: Value, ops: seq<Operation>)
    requires OwnMarkers(ops)
    requires Apply(d, ops).Ok?
    ensures Revert(Apply(d, ops).value, ops) == Revert(d, ops)
    decreases |ops|
  {
    if ops != [] {
      var o, rest := ops[0], ops[1..];
      var next, out := ApplyOne(d, o).value, Apply(d, ops).value;
      assert o.CarriesOwnMarker();
      RevertOfApply(next, rest);
      RevertSwap(out, o, rest);
      RevertSwap(next, o, rest);
      RemoveAfterEnsure(d, o.Path(), o.markerKey, o.markerValue, o.element);
    }
  }

  // ----- addressing

  /** The value at a path of object keys. */
  function At(doc: Value, path: seq<string>): Option<Value> {
    if path == [] then Some(doc)
    else
      match Get(doc, path[0])
      case None => None
      case Some(child) => At(child, path[1..])
  }

  /** Nothing at `path` for a removal to take: no marked element, no empty container. */
  ghost predicate Clean(doc: Value, path: seq<string>, key: string, value: string) {
    && (forall n | 0 < n < |path| :: At(doc, path[..n]) != Some(EMPTY_OBJECT))
    && (path != [] && At(doc, path).Some? && At(doc, path).value.Arr? ==>
          At(doc, path).value.items != [] && !AnyMarked(At(doc, path).value.items, key, value))
  }

  ghost predicate CleanOf(doc: Value, op: Operation) {
    Clean(doc, op.Path(), op.markerKey, op.markerValue)
  }

  lemma AtStep(doc: Value, path: seq<string>, n: nat)
    requires 0 < n <= |path|
    requires doc.Obj? && path[0] in doc.fields
    ensures At(doc, path[..n]) == At(doc.fields[path[0]], path[1..][..n - 1])
  {
    assert path[..n][1..] == path[1..][..n - 1];
  }

  lemma CleanStep(doc: Value, path: seq<string>, key: string, value: string)
    requires |path| > 1 && doc.Obj? && path[0] in doc.fields
    ensures Clean(doc, path, key, value) <==>
            doc.fields[path[0]] != EMPTY_OBJECT && Clean(doc.fields[path[0]], path[1..], key, value)
  {
    var child, rest := doc.fields[path[0]], path[1..];
    forall n | 0 < n <= |path|
      ensures At(doc, path[..n]) == At(child, rest[..n - 1])
    {
      AtStep(doc, path, n);
    }
    assert path[..|path|] == path && rest[..|rest|] == rest;
    assert At(doc, path[..1]) == Some(child) by {
      assert rest[..0] == [];
    }
    if Clean(doc, path, key, value) {
      forall n | 0 < n < |rest|
        ensures At(child, rest[..n]) != Some(EMPTY_OBJECT)
      {
        assert At(doc, path[..n + 1]) == At(child, rest[..n]);
      }
    }
  }

  /** A removal changes nothing exactly when there is nothing for it to take. */
  lemma {:induction false} RemoveFixedIffClean(doc: Value, path: seq<string>, key: string, value: string)
    ensures RemoveMarked(doc, path, key, value) == doc <==> Clean(doc, path, key, value)
    decreases |path|
  {
    if path == [] {
    } else if !doc.Obj? || path[0] !in doc.fields {
      forall n | 0 < n <= |path|
        ensures At(doc, path[..n]) == None
      {
        assert path[..n][0] == path[0];
      }
      assert path[..|path|] == path;
    } else {
      var child, rest := doc.fields[path[0]], path[1..];
      var left := Surviving(child, rest, key, value);
      assert RemoveMarked(doc, path, key, value) == doc <==> left == Some(child) by {
        assert doc.fields[path[0] := child] == doc.fields;
        assert left.None? ==> path[0] !in (doc.fields - {path[0]});
        assert left.Some? ==> doc.fields[path[0] := left.value][path[0]] == left.value;
      }
      if rest == [] {
        assert At(doc, path) == Some(child);
        if child.Arr? {
          RetainFixed(child.items, key, value);
        }
      } else {
        RemoveFixedIffClean(child, rest, key, value);
        CleanStep(doc, path, key, value);
        assert child == EMPTY_OBJECT ==> RemoveMarked(child, rest, key, value) == EMPTY_OBJECT;
      }
    }
  }

  /** A removal leaves nothing for a second one. */
  lemma {:induction false} RemoveTwice(doc: Value, path: seq<string>, key: string, value: string)
    ensures RemoveMarked(RemoveMarked(doc, path, key, value), path, key, value) == RemoveMarked(doc, path, key, value)
    decreases |path|
  {
    if path != [] && doc.Obj? && path[0] in doc.fields {
      var child, rest := doc.fields[path[0]], path[1..];
      var left := Surviving(child, rest, key, value);
      if left.Some? {
        assert Surviving(left.value, rest, key, value) == left by {
          if rest == [] {
            if child.Arr? {
              RetainFixed(child.items, key, value);
              RetainFixed(left.value.items, key, value);
            }
          } else {
            RemoveTwice(child, rest, key, value);
          }
        }
        assert doc.fields[path[0] := left.value][path[0] := left.value] == doc.fields[path[0] := left.value];
      }
    }
  }

  lemma {:induction false} RevertAbsorbs(d: Value, ops: seq<Operation>, i: nat)
    requires i < |ops|
    ensures RevertOne(Revert(d, ops), ops[i]) == Revert(d, ops)
    decreases |ops|
  {
    var o, rest := ops[0], ops[1..];
    if i == 0 {
      RevertSwap(RevertOne(d, o), o, rest);
      RemoveTwice(d, o.Path(), o.markerKey, o.markerValue);
    } else {
      RevertAbsorbs(RevertOne(d, o), rest, i - 1);
    }
  }

  /** Uninstalling twice is uninstalling once. */
  lemma {:induction false} RevertTwice(d: Value, ops: seq<Operation>)
    ensures Revert(Revert(d, ops), ops) == Revert(d, ops)
  {
    var r := Revert(d, ops);
    var i := 0;
    while i < |ops|
      invariant 0 <= i <= |ops|
      invariant Revert(r, ops[i..]) == Revert(r, ops)
    {
      assert ops[i..][1..] == ops[i + 1..];
      RevertAbsorbs(d, ops, i);
      i := i + 1;
    }
  }

  lemma {:induction false} RevertFixedIffClean(d: Value, ops: seq<Operation>)
    ensures Revert(d, ops) == d <==> forall i | 0 <= i < |ops| :: CleanOf(d, ops[i])
  {
    forall i | 0 <= i < |ops|
      ensures RevertOne(d, ops[i]) == d <==> CleanOf(d, ops[i])
    {
      RemoveFixedIffClean(d, ops[i].Path(), ops[i].markerKey, ops[i].markerValue);
    }
    if Revert(d, ops) == d {
      forall i | 0 <= i < |ops|
        ensures RevertOne(d, ops[i]) == d
      {
        RevertAbsorbs(d, ops, i);
      }
    } else if forall i | 0 <= i < |ops| :: CleanOf(d, ops[i]) {
      var i := 0;
      while i < |ops|
        invariant 0 <= i <= |ops|
        invariant Revert(d, ops[i..]) == Revert(d, ops)
      {
        assert ops[i..][1..] == ops[i + 1..];
        i := i + 1;
      }
    }
  }

  /** Installing and then uninstalling gives the document back exactly when it held none of the
      marked elements and no empty container on the way to them. */
  lemma RoundTripIffClean(d: Value, ops: seq<Operation>)
    requires OwnMarkers(ops)
    requires Apply(d, ops).Ok?
    ensures Revert(Apply(d, ops).value, ops) == d <==> forall i | 0 <= i < |ops| :: CleanOf(d, ops[i])
  {
    RevertOfApply(d, ops);
    RevertFixedIffClean(d, ops);
  }

  // ----- what one installation changes, path by path

  /** An operation is refused exactly when it has no path, something on the way is not an object,
      or what is already there is not an array. */
  lemma {:induction false} EnsureSucceedsIff(d: Value, p: seq<string>, k: string, v: string, e: Value)
    ensures Ensure(d, p, k, v, e).Ok? <==>
            && p != []
            && (forall n | 0 <= n < |p| :: At(d, p[..n]).Some? ==> At(d, p[..n]).value.Obj?)
            && (At(d, p).Some? ==> At(d, p).value.Arr?)
    decreases |p|
  {
    if p == [] {
    } else if !d.Obj? {
      assert p[..0] == [];
    } else if p[0] !in d.fields {
      if |p| > 1 {
        EnsureIntoNothing(p[1..], k, v, e);
      }
      forall n | 0 < n <= |p|
        ensures At(d, p[..n]) == None
      {
        assert p[..n][0] == p[0];
      }
      assert p[..0] == [] && p[..|p|] == p;
    } else {
      var child, rest := d.fields[p[0]], p[1..];
      forall n | 0 < n <= |p|
        ensures At(d, p[..n]) == At(child, rest[..n - 1])
      {
        AtStep(d, p, n);
      }
      assert p[..0] == [] && p[..|p|] == p && rest[..|rest|] == rest;
      if |p| > 1 {
        EnsureSucceedsIff(child, rest, k, v, e);
        assert forall n | 0 <= n < |rest| :: At(child, rest[..n]) == At(d, p[..n + 1]);
      }
    }
  }

  predicate PrefixBlocked(d: Value, p: seq<string>) {
    exists n | 0 <= n < |p| :: At(d, p[..n]).Some? && !At(d, p[..n]).value.Obj?
  }

  /** And the reason given: the root, then something on the way, then what is at the end. */
  lemma {:induction false} RefusalSays(d: Value, p: seq<string>, k: string, v: string, e: Value)
    requires Ensure(d, p, k, v, e).Err?
    ensures Ensure(d, p, k, v, e).error ==
      if p == [] then RootPointer else if PrefixBlocked(d, p) then PrefixNotObject else TerminalNotArray
    decreases |p|
  {
    if p == [] {
    } else if !d.Obj? {
      assert p[..0] == [];
    } else if |p| == 1 {
      assert p[..0] == [] && At(d, p[..0]) == Some(d);
    } else {
      if p[0] !in d.fields {
        EnsureIntoNothing(p[1..], k, v, e);
      }
      RefusalSays(d.fields[p[0]], p[1..], k, v, e);
      BlockedBelow(d, p);
    }
  }

  lemma BlockedBelow(d: Value, p: seq<string>)
    requires |p| > 1 && d.Obj? && p[0] in d.fields
    ensures PrefixBlocked(d, p) <==> PrefixBlocked(d.fields[p[0]], p[1..])
  {
    var child, rest := d.fields[p[0]], p[1..];
    forall n | 0 < n <= |p|
      ensures At(d, p[..n]) == At(child, rest[..n - 1])
    {
      AtStep(d, p, n);
    }
    assert p[..0] == [] && At(d, p[..0]) == Some(d);
    if PrefixBlocked(child, rest) {
      var n :| 0 <= n < |rest| && At(child, rest[..n]).Some? && !At(child, rest[..n]).value.Obj?;
      assert At(d, p[..n + 1]) == At(child, rest[..n]);
    }
    if PrefixBlocked(d, p) {
      var n :| 0 <= n < |p| && At(d, p[..n]).Some? && !At(d, p[..n]).value.Obj?;
      assert At(d, p[..n]) == At(child, rest[..n - 1]);
    }
  }

  /** A list is refused with the reason of the first operation that is, on what the ones before it left. */
  lemma {:induction false} ApplyRefusal(d: Value, ops: seq<Operation>) returns (i: nat)
    requires Apply(d, ops).Err?
    ensures i < |ops| && Apply(d, ops[..i]).Ok?
    ensures ApplyOne(Apply(d, ops[..i]).value, ops[i]) == Err(Apply(d, ops).error)
    decreases |ops|
  {
    if ApplyOne(d, ops[0]).Err? {
      i := 0;
    } else {
      var next, rest := ApplyOne(d, ops[0]).value, ops[1..];
      i := ApplyRefusal(next, rest);
      assert ops[..i + 1][1..] == rest[..i];
      i := i + 1;
    }
  }

  lemma {:induction false} EnsureIntoNothing(p: seq<string>, k: string, v: string, e: Value)
    requires p != []
    ensures Ensure(EMPTY_OBJECT, p, k, v, e).Ok?
    decreases |p|
  {
    if |p| > 1 {
      EnsureIntoNothing(p[1..], k, v, e);
    }
  }

  /** Nothing on the way to the path, or at its end, stands in the way of an element. */
  predicate Open(d: Value, p: seq<string>) {
    && p != []
    && (forall n | 0 <= n < |p| :: At(d, p[..n]).Some? ==> At(d, p[..n]).value.Obj?)
    && (At(d, p).Some? ==> At(d, p).value.Arr?)
  }

  /** The elements of the array at a path, where there is one. */
  function ItemsAt(d: Value, p: seq<string>): seq<Value> {
    match At(d, p)
    case Some(w) => if w.Arr? then w.items else []
    case None => []
  }

  /** The keys of the object at a path, where there is one. */
  function KeysAt(d: Value, p: seq<string>): set<string> {
    match At(d, p)
    case Some(w) => if w.Obj? then w.fields.Keys else {}
    case None => {}
  }

  /** Values off the operation's path stay; the addressed array keeps its elements and gains at most
      the operation's own at the end; an object on the way gains at most the next key of the path. */
  lemma {:induction false} EnsureEffect(d: Value, p: seq<string>, k: string, v: string, e: Value, q: seq<string>)
    requires Ensure(d, p, k, v, e).Ok?
    ensures var d' := Ensure(d, p, k, v, e).value;
            && (!(q <= p) ==> At(d', q) == At(d, q))
            && (q == p ==> At(d', q) == Some(Arr(ItemsAt(d, q) + if AnyMarked(ItemsAt(d, q), k, v) then [] else [e])))
            && (q < p ==> At(d', q).Some? && At(d', q).value.Obj? && KeysAt(d', q) == KeysAt(d, q) + {p[|q|]})
    decreases |p|
  {
    var d' := Ensure(d, p, k, v, e).value;
    if q == [] {
    } else if q[0] != p[0] {
    } else {
      var child := FieldOr(d.fields, p[0], if |p| == 1 then EMPTY_ARRAY else EMPTY_OBJECT);
      assert At(d, q) == if p[0] in d.fields then At(child, q[1..]) else None;
      assert At(d', q) == At(d'.fields[p[0]], q[1..]);
      if |p| == 1 {
        assert q[1..] != [] ==> At(child, q[1..]) == None;
        assert q[1..] == [] ==> q == p;
        assert ItemsAt(d, q) + [] == ItemsAt(d, q);
      } else {
        EnsureEffect(child, p[1..], k, v, e, q[1..]);
        assert q[1..] <= p[1..] <==> q <= p;
        assert q[1..] == p[1..] ==> q == p;
        if p[0] !in d.fields && q[1..] != [] {
          assert At(EMPTY_OBJECT, q[1..]) == None;
        }
      }
    }
  }

  // ----- what a list of installations changes

  /** How a value may change under installation: arrays and objects grow, everything else stays. */
  predicate Grown(before: Value, after: Value) {
    match before
    case Arr(items) => after.Arr? && items <= after.items
    case Obj(fields) => after.Obj? && fields.Keys <= after.fields.Keys
    case _ => after == before
  }

  lemma EnsureGrows(d: Value, p: seq<string>, k: string, v: string, e: Value, q: seq<string>)
    requires Ensure(d, p, k, v, e).Ok?
    requires At(d, q).Some?
    ensures At(Ensure(d, p, k, v, e).value, q).Some?
    ensures Grown(At(d, q).value, At(Ensure(d, p, k, v, e).value, q).value)
  {
    EnsureEffect(d, p, k, v, e, q);
    EnsureSucceedsIff(d, p, k, v, e);
    if q < p {
      assert q == p[..|q|];
    }
  }

  /** Installing loses nothing: every value is still at its path, grown at most, and a value that
      is on no operation's path is the same. */
  lemma {:induction false} ApplyKeeps(d: Value, ops: seq<Operation>, q: seq<string>)
    requires Apply(d, ops).Ok?
    ensures At(d, q).Some? ==>
      At(Apply(d, ops).value, q).Some? && Grown(At(d, q).value, At(Apply(d, ops).value, q).value)
    ensures (forall i | 0 <= i < |ops| :: !(q <= ops[i].Path())) ==> At(Apply(d, ops).value, q) == At(d, q)
    decreases |ops|
  {
    if ops != [] {
      var o, next := ops[0], ApplyOne(d, ops[0]).value;
      ApplyKeeps(next, ops[1..], q);
      EnsureEffect(d, o.Path(), o.markerKey, o.markerValue, o.element, q);
      if At(d, q).Some? {
        EnsureGrows(d, o.Path(), o.markerKey, o.markerValue, o.element, q);
      }
      if forall i | 0 <= i < |ops| :: !(q <= ops[i].Path()) {
        assert forall i | 0 <= i < |ops[1..]| :: ops[1..][i] == ops[i + 1];
      }
    }
  }

  lemma {:induction false} OneAddition(d: Value, op: Operation, q: seq<string>, j: nat)
    requires ApplyOne(d, op).Ok?
    requires |ItemsAt(d, q)| <= j < |ItemsAt(ApplyOne(d, op).value, q)|
    ensures op.Path() == q && ItemsAt(ApplyOne(d, op).value, q)[j] == op.element
  {
    EnsureEffect(d, op.Path(), op.markerKey, op.markerValue, op.element, q);
  }

  /** An array gains only elements that operations on its own path declare. */
  lemma {:induction false} ApplyAddsOnlyDeclared(d: Value, ops: seq<Operation>, q: seq<string>, j: nat) returns (i: nat)
    requires Apply(d, ops).Ok?
    requires |ItemsAt(d, q)| <= j < |ItemsAt(Apply(d, ops).value, q)|
    ensures i < |ops| && ops[i].Path() == q && ops[i].element == ItemsAt(Apply(d, ops).value, q)[j]
    decreases |ops|
  {
    var next := ApplyOne(d, ops[0]).value;
    if j < |ItemsAt(next, q)| {
      OneAddition(d, ops[0], q, j);
      ApplyKeeps(next, ops[1..], q);
      i := 0;
    } else {
      i := ApplyAddsOnlyDeclared(next, ops[1..], q, j);
      i := i + 1;
    }
  }

  /** The operation's marked element is in place. */
  predicate Installed(d: Value, op: Operation) {
    op.Path() != [] && AnyMarked(ItemsAt(d, op.Path()), op.markerKey, op.markerValue)
  }

  lemma {:induction false} EnsureFixed(d: Value, p: seq<string>, k: string, v: string, e: Value)
    requires p != [] && AnyMarked(ItemsAt(d, p), k, v)
    ensures Ensure(d, p, k, v, e) == Ok(d)
    decreases |p|
  {
    assert d.Obj? && p[0] in d.fields;
    var child := d.fields[p[0]];
    assert d.fields[p[0] := child] == d.fields;
    if |p| == 1 {
      assert At(d, p) == Some(child);
    } else {
      EnsureFixed(child, p[1..], k, v, e);
    }
  }

  lemma InstalledByOne(d: Value, op: Operation)
    requires op.CarriesOwnMarker() && ApplyOne(d, op).Ok?
    ensures Installed(ApplyOne(d, op).value, op)
  {
    var p := op.Path();
    EnsureEffect(d, p, op.markerKey, op.markerValue, op.element, p);
    var items := ItemsAt(d, p);
    if AnyMarked(items, op.markerKey, op.markerValue) {
      assert items + [] == items;
    } else {
      assert (items + [op.element])[|items|] == op.element;
    }
  }

  lemma InstalledStays(d: Value, op: Operation, ops: seq<Operation>)
    requires Installed(d, op) && Apply(d, ops).Ok?
    ensures Installed(Apply(d, ops).value, op)
  {
    ApplyKeeps(d, ops, op.Path());
    var i :| 0 <= i < |ItemsAt(d, op.Path())| && HasMarker(ItemsAt(d, op.Path())[i], op.markerKey, op.markerValue);
    assert HasMarker(ItemsAt(Apply(d, ops).value, op.Path())[i], op.markerKey, op.markerValue);
  }

  /** After a successful installation every operation's element is in place. */
  lemma {:induction false} ApplyInstalls(d: Value, ops: seq<Operation>, i: nat)
    requires OwnMarkers(ops) && Apply(d, ops).Ok? && i < |ops|
    ensures Installed(Apply(d, ops).value, ops[i])
    decreases |ops|
  {
    var next := ApplyOne(d, ops[0]).value;
    if i == 0 {
      InstalledByOne(d, ops[0]);
      InstalledStays(next, ops[0], ops[1..]);
    } else {
      ApplyInstalls(next, ops[1..], i - 1);
    }
  }

  /** Installing again succeeds and changes nothing. */
  lemma {:induction false} ApplyTwice(d: Value, ops: seq<Operation>)
    requires OwnMarkers(ops) && Apply(d, ops).Ok?
    ensures Apply(Apply(d, ops).value, ops) == Ok(Apply(d, ops).value)
  {
    var out := Apply(d, ops).value;
    var i := |ops|;
    while i > 0
      invariant 0 <= i <= |ops|
      invariant Apply(out, ops[i..]) == Ok(out)
    {
      i := i - 1;
      assert ops[i..][1..] == ops[i + 1..];
      ApplyInstalls(d, ops, i);
      EnsureFixed(out, ops[i].Path(), ops[i].markerKey, ops[i].markerValue, ops[i].element);
    }
  }

  // ----- what a removal changes, path by path

  /** Values off the path stay, so no container holding one is ever pruned; of the addressed array
      exactly the unmarked elements stay, and the array goes when there are none. */
  lemma {:induction false} RemoveEffect(d: Value, p: seq<string>, k: string, v: string, q: seq<string>)
    requires p != []
    ensures var d' := RemoveMarked(d, p, k, v);
            && (!(q <= p) ==> At(d', q) == At(d, q))
            && (q == p ==> At(d', q) == match At(d, q)
                                        case Some(Arr(items)) =>
                                          if Retain(items, k, v) == [] then None else Some(Arr(Retain(items, k, v)))
                                        case other => other)
            && (At(d, q) == None ==> At(d', q) == None)
    decreases |p|
  {
    var d' := RemoveMarked(d, p, k, v);
    if q != [] && d.Obj? && p[0] in d.fields && q[0] == p[0] {
      var child := d.fields[p[0]];
      var left := Surviving(child, p[1..], k, v);
      assert At(d, q) == At(child, q[1..]);
      assert At(d', q) == if left.Some? then At(left.value, q[1..]) else None;
      if |p| == 1 {
        assert q[1..] == [] <==> q == p;
      } else {
        RemoveEffect(child, p[1..], k, v, q[1..]);
        assert q[1..] <= p[1..] <==> q <= p;
        assert q[1..] == p[1..] <==> q == p;
        assert q[1..] != [] ==> At(EMPTY_OBJECT, q[1..]) == None;
      }
    }
  }

  /** Uninstalling never touches a value that is on no operation's path. */
  lemma {:induction false} RevertKeeps(d: Value, ops: seq<Operation>, q: seq<string>)
    requires forall i | 0 <= i < |ops| :: !(q <= ops[i].Path())
    ensures At(Revert(d, ops), q) == At(d, q)
    decreases |ops|
  {
    if ops != [] {
      var o := ops[0];
      assert forall i | 0 <= i < |ops[1..]| :: ops[1..][i] == ops[i + 1];
      RevertKeeps(RevertOne(d, o), ops[1..], q);
      if o.Path() != [] {
        RemoveEffect(d, o.Path(), o.markerKey, o.markerValue, q);
      }
    }
  }

  // ----- when a whole list succeeds

  /** One of the two paths leads through the other's array. */
  predicate Crossing(p: seq<string>, q: seq<string>) {
    p < q || q < p
  }

  lemma Beside(p: seq<string>, n: nat, q: seq<string>)
    requires n <= |p| && !Crossing(p, q)
    ensures n < |p| ==> p[..n] != q
    ensures p <= q ==> p == q
  {
  }

  /** An operation that succeeded leaves every path open that was open and does not cross its own. */
  lemma StaysOpen(d: Value, o: Operation, p: seq<string>)
    requires ApplyOne(d, o).Ok? && Open(d, p) && !Crossing(p, o.Path())
    ensures Open(ApplyOne(d, o).value, p)
  {
    var d' := ApplyOne(d, o).value;
    forall n | 0 <= n <= |p|
      ensures n < |p| ==> At(d', p[..n]).Some? ==> At(d', p[..n]).value.Obj?
      ensures n == |p| ==> At(d', p[..n]).Some? ==> At(d', p[..n]).value.Arr?
    {
      assert n == |p| ==> p[..n] == p;
      Beside(p, n, o.Path());
      EnsureEffect(d, o.Path(), o.markerKey, o.markerValue, o.element, p[..n]);
    }
    assert p[..|p|] == p;
  }

  lemma WasOpen(d: Value, o: Operation, p: seq<string>)
    requires ApplyOne(d, o).Ok? && Open(ApplyOne(d, o).value, p)
    ensures Open(d, p)
  {
    var d' := ApplyOne(d, o).value;
    forall n | 0 <= n <= |p|
      ensures n < |p| ==> At(d, p[..n]).Some? ==> At(d, p[..n]).value.Obj?
      ensures n == |p| ==> At(d, p[..n]).Some? ==> At(d, p[..n]).value.Arr?
    {
      assert n == |p| ==> p[..n] == p;
      if At(d, p[..n]).Some? {
        EnsureGrows(d, o.Path(), o.markerKey, o.markerValue, o.element, p[..n]);
      }
    }
    assert p[..|p|] == p;
  }

  lemma CrossingCloses(d: Value, o: Operation, p: seq<string>)
    requires ApplyOne(d, o).Ok? && Crossing(p, o.Path())
    ensures !Open(ApplyOne(d, o).value, p)
  {
    var q, d' := o.Path(), ApplyOne(d, o).value;
    EnsureEffect(d, q, o.markerKey, o.markerValue, o.element, q);
    EnsureEffect(d, q, o.markerKey, o.markerValue, o.element, p);
    if q < p {
      assert p[..|q|] == q;
    }
  }

  lemma OpenIff(d: Value, o: Operation)
    ensures ApplyOne(d, o).Ok? <==> Open(d, o.Path())
  {
    EnsureSucceedsIff(d, o.Path(), o.markerKey, o.markerValue, o.element);
  }

  /** After one success, another operation succeeds exactly when it would have before and the two do not cross. */
  lemma OkAfter(d: Value, o: Operation, r: Operation)
    requires ApplyOne(d, o).Ok?
    ensures ApplyOne(ApplyOne(d, o).value, r).Ok? <==> ApplyOne(d, r).Ok? && !Crossing(r.Path(), o.Path())
  {
    var d' := ApplyOne(d, o).value;
    OpenIff(d, r);
    OpenIff(d', r);
    if Open(d', r.Path()) {
      WasOpen(d, o, r.Path());
    }
    if Crossing(r.Path(), o.Path()) {
      CrossingCloses(d, o, r.Path());
    } else if Open(d, r.Path()) {
      StaysOpen(d, o, r.Path());
    }
  }

  ghost predicate EachOk(d: Value, ops: seq<Operation>) {
    forall i | 0 <= i < |ops| :: ApplyOne(d, ops[i]).Ok?
  }

  ghost predicate NoneCross(ops: seq<Operation>) {
    forall i, j | 0 <= i < j < |ops| :: !Crossing(ops[j].Path(), ops[i].Path())
  }

  ghost predicate NoneCrosses(ops: seq<Operation>, p: seq<string>) {
    forall i | 0 <= i < |ops| :: !Crossing(ops[i].Path(), p)
  }

  lemma NoneCrossFirst(ops: seq<Operation>)
    requires ops != []
    ensures NoneCross(ops) <==> NoneCrosses(ops[1..], ops[0].Path()) && NoneCross(ops[1..])
  {
    var rest := ops[1..];
    if NoneCrosses(rest, ops[0].Path()) && NoneCross(rest) {
      forall i, j | 0 <= i < j < |ops|
        ensures !Crossing(ops[j].Path(), ops[i].Path())
      {
        assert ops[j] == rest[j - 1];
        assert i > 0 ==> ops[i] == rest[i - 1];
      }
    }
  }

  lemma EachOkFirst(d: Value, ops: seq<Operation>)
    requires ops != []
    ensures EachOk(d, ops) <==> ApplyOne(d, ops[0]).Ok? && EachOk(d, ops[1..])
  {
    var rest := ops[1..];
    if ApplyOne(d, ops[0]).Ok? && EachOk(d, rest) {
      forall i | 0 <= i < |ops|
        ensures ApplyOne(d, ops[i]).Ok?
      {
        assert i > 0 ==> ops[i] == rest[i - 1];
      }
    }
  }

  lemma EachOkAfter(d: Value, o: Operation, rest: seq<Operation>)
    requires ApplyOne(d, o).Ok?
    ensures EachOk(ApplyOne(d, o).value, rest) <==> EachOk(d, rest) && NoneCrosses(rest, o.Path())
  {
    forall i | 0 <= i < |rest|
      ensures ApplyOne(ApplyOne(d, o).value, rest[i]).Ok? <==>
        ApplyOne(d, rest[i]).Ok? && !Crossing(rest[i].Path(), o.Path())
    {
      OkAfter(d, o, rest[i]);
    }
  }

  /** A list succeeds exactly when each operation would succeed alone and no two pointers cross. */
  lemma {:induction false} ApplySucceedsIff(d: Value, ops: seq<Operation>)
    ensures Apply(d, ops).Ok? <==> EachOk(d, ops) && NoneCross(ops)
    decreases |ops|
  {
    if ops != [] {
      EachOkFirst(d, ops);
      NoneCrossFirst(ops);
      if ApplyOne(d, ops[0]).Ok? {
        ApplySucceedsIff(ApplyOne(d, ops[0]).value, ops[1..]);
        EachOkAfter(d, ops[0], ops[1..]);
      }
    }
  }

  lemma NoneCrossMembers(ops: seq<Operation>)
    ensures NoneCross(ops) <==> forall x, y | x in ops && y in ops :: !Crossing(x.Path(), y.Path())
  {
    if NoneCross(ops) {
      forall x, y | x in ops && y in ops
        ensures !Crossing(x.Path(), y.Path())
      {
        var i :| 0 <= i < |ops| && ops[i] == x;
        var j :| 0 <= j < |ops| && ops[j] == y;
      }
    }
  }

  /** So success depends only on which operations there are. */
  lemma SuccessInAnyOrder(d: Value, a: seq<Operation>, b: seq<Operation>)
    requires forall o :: o in a <==> o in b
    ensures Apply(d, a).Ok? <==> Apply(d, b).Ok?
  {
    ApplySucceedsIff(d, a);
    ApplySucceedsIff(d, b);
    NoneCrossMembers(a);
    NoneCrossMembers(b);
    EachOkMembers(d, a);
    EachOkMembers(d, b);
  }

  lemma EachOkMembers(d: Value, ops: seq<Operation>)
    ensures EachOk(d, ops) <==> forall o | o in ops :: ApplyOne(d, o).Ok?
  {
  }
}
