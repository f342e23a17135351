/** Which operation lists an adapter manifest may declare. */
module Manifest {
  import opened Prelude
  import opened Json
  import opened Text
  import opened Lists
  import opened Mutate
  import JsonPointer
  import MutateLaws

  const MAX_OPERATIONS := 16
  const MAX_POINTER_BYTES := 256
  const MAX_POINTER_DEPTH := 16
  const MAX_ELEMENT_BYTES := 4096

  datatype ManifestError =
    | OperationCountOutOfBounds
    | PointerTooLong(pointer: string)
    | InvalidPointer(pointer: string)
    | PointerTooDeep(pointer: string)
    | DuplicateOperation(pointer: string)
    | ElementTooLarge
    | MarkerMismatch(markerKey: string, expected: string, actual: string)

  /** The length of a text in UTF-8. */
  function ByteLength(s: string): nat {
    if s == "" then 0
    else (if s[0] < 0x80 as char then 1 else if s[0] < 0x800 as char then 2
          else if s[0] < 0x10000 as char then 3 else 4)
         + ByteLength(s[1..])
  }

  function Slashes(s: string): nat {
    if s == "" then 0 else (if s[0] == '/' then 1 else 0) + Slashes(s[1..])
  }

  function PointerProblem(pointer: string): Option<ManifestError> {
    if ByteLength(pointer) > MAX_POINTER_BYTES then Some(PointerTooLong(pointer))
    else if pointer != "" && pointer[0] != '/' then Some(InvalidPointer(pointer))
    else if Slashes(pointer) > MAX_POINTER_DEPTH then Some(PointerTooDeep(pointer))
    else None
  }

  /** The text under which an operation is remembered as seen. */
  function SeenKey(op: Operation): string {
    op.pointer + ("\0" + (op.markerKey + ("\0" + op.markerValue)))
  }

  /** What is wrong with operation `i` of a list, given the serialized size of elements. */
  function Problem(ops: seq<Operation>, i: nat, size: Value -> nat): Option<ManifestError>
    requires i < |ops|
  {
    var op := ops[i];
    if PointerProblem(op.pointer).Some? then PointerProblem(op.pointer)
    else if exists j | 0 <= j < i :: SeenKey(ops[j]) == SeenKey(op) then Some(DuplicateOperation(op.pointer))
    else if size(op.element) > MAX_ELEMENT_BYTES then Some(ElementTooLarge)
    else
      var actual := GetStr(op.element, op.markerKey);
      if actual != Some(op.markerValue) then
        Some(MarkerMismatch(op.markerKey, op.markerValue, if actual.Some? then actual.value else "<missing>"))
      else None
  }

  /** An acceptable list, said without reference to order: bounded, well-formed pointers, small elements
      that carry their own markers, and no two with the same key. */
  ghost predicate Acceptable(ops: seq<Operation>, size: Value -> nat) {
    && 1 <= |ops| <= MAX_OPERATIONS
    && (forall i | 0 <= i < |ops| ::
          && PointerProblem(ops[i].pointer).None? && size(ops[i].element) <= MAX_ELEMENT_BYTES
          && ops[i].CarriesOwnMarker())
    && (forall i, j | 0 <= i < j < |ops| :: SeenKey(ops[i]) != SeenKey(ops[j]))
  }

  lemma AcceptableIffNoProblem(ops: seq<Operation>, size: Value -> nat)
    requires 1 <= |ops| <= MAX_OPERATIONS
    ensures Acceptable(ops, size) <==> forall i | 0 <= i < |ops| :: Problem(ops, i, size).None?
  {
    if forall i | 0 <= i < |ops| :: Problem(ops, i, size).None? {
      forall i | 0 <= i < |ops|
        ensures PointerProblem(ops[i].pointer).None? && size(ops[i].element) <= MAX_ELEMENT_BYTES
        ensures ops[i].CarriesOwnMarker()
        ensures forall j | 0 <= j < i :: SeenKey(ops[j]) != SeenKey(ops[i])
      {
        assert Problem(ops, i, size).None?;
      }
    }
  }

  /** The operation checks: accepted exactly when acceptable; otherwise the first problem is reported. */
  method ValidateOperations(ops: seq<Operation>, size: Value -> nat) returns (r: Option<ManifestError>)
    ensures r.None? <==> Acceptable(ops, size)
    ensures r == Some(OperationCountOutOfBounds) <==> ops == [] || |ops| > MAX_OPERATIONS
    ensures r.Some? && 1 <= |ops| <= MAX_OPERATIONS ==>
              exists i | 0 <= i < |ops| ::
                Problem(ops, i, size) == r && forall j | 0 <= j < i :: Problem(ops, j, size).None?
  {
    if ops == [] || |ops| > MAX_OPERATIONS {
      return Some(OperationCountOutOfBounds);
    }
    var seen := {};
    for i := 0 to |ops|
      invariant seen == set j | 0 <= j < i :: SeenKey(ops[j])
      invariant forall j | 0 <= j < i :: Problem(ops, j, size).None?
    {
      var op := ops[i];
      AcceptableIffNoProblem(ops, size);
      if PointerProblem(op.pointer).Some? {
        assert Problem(ops, i, size) == PointerProblem(op.pointer);
        return PointerProblem(op.pointer);
      }
      var key := SeenKey(op);
      if key in seen {
        var j :| 0 <= j < i && SeenKey(ops[j]) == key;
        assert Problem(ops, i, size) == Some(DuplicateOperation(op.pointer));
        return Some(DuplicateOperation(op.pointer));
      }
      seen := seen + {key};
      if size(op.element) > MAX_ELEMENT_BYTES {
        assert Problem(ops, i, size) == Some(ElementTooLarge);
        return Some(ElementTooLarge);
      }
      var actual := GetStr(op.element, op.markerKey);
      if actual != Some(op.markerValue) {
        assert Problem(ops, i, size).Some?;
        return Some(MarkerMismatch(op.markerKey, op.markerValue, if actual.Some? then actual.value else "<missing>"));
      }
    }
    AcceptableIffNoProblem(ops, size);
    return None;
  }

  // ----- what acceptance buys

  /** For accepted operations, uninstalling undoes exactly what installing did, and installing again changes
      nothing. */
  lemma AcceptedRoundTrip(d: Value, ops: seq<Operation>, size: Value -> nat)
    requires Acceptable(ops, size) && Apply(d, ops).Ok?
    ensures Revert(Apply(d, ops).value, ops) == Revert(d, ops)
    ensures Apply(Apply(d, ops).value, ops) == Ok(Apply(d, ops).value)
  {
    MutateLaws.RevertOfApply(d, ops);
    MutateLaws.ApplyTwice(d, ops);
  }

  lemma {:induction false} SlashesAreCuts(s: string)
    ensures |Split(s, '/')| == Slashes(s) + 1
  {
    if s != "" {
      SlashesAreCuts(s[1..]);
    }
  }

  /** An accepted pointer names at most as many keys as the depth limit; only the empty one names none. */
  lemma AcceptedDepth(pointer: string)
    requires PointerProblem(pointer).None?
    ensures |JsonPointer.Segments(pointer)| == Slashes(pointer) <= MAX_POINTER_DEPTH
    ensures JsonPointer.Segments(pointer) == [] <==> pointer == ""
  {
    SlashesAreCuts(pointer);
  }

  /** The root pointer passes the checks, but no document can ever be changed there. */
  lemma {:induction false} RootPointerNeverApplies(d: Value, ops: seq<Operation>, i: nat)
    requires i < |ops| && ops[i].pointer == ""
    ensures Apply(d, ops).Err?
    decreases |ops|
  {
    if i > 0 && ApplyOne(d, ops[0]).Ok? {
      RootPointerNeverApplies(ApplyOne(d, ops[0]).value, ops[1..], i - 1);
    }
  }

  lemma FirstNul(a: string, x: string, b: string, y: string)
    requires '\0' !in a && '\0' !in b && a + ("\0" + x) == b + ("\0" + y)
    ensures a == b && x == y
  {
    IndexOfIs(a, '\0', "\0" + x);
    IndexOfIs(b, '\0', "\0" + y);
    AfterPrefix(a, "\0" + x);
    AfterPrefix(b, "\0" + y);
    AfterPrefix("\0", x);
    AfterPrefix("\0", y);
  }

  /** Two operations count as duplicates exactly when pointer and marker agree, provided neither the pointers
      nor the marker keys contain a NUL. */
  lemma SameKeyIffSameMarker(a: Operation, b: Operation)
    requires '\0' !in a.pointer && '\0' !in a.markerKey && '\0' !in b.pointer && '\0' !in b.markerKey
    ensures SeenKey(a) == SeenKey(b) <==>
      a.pointer == b.pointer && a.markerKey == b.markerKey && a.markerValue == b.markerValue
  {
    if SeenKey(a) == SeenKey(b) {
      FirstNul(a.pointer, a.markerKey + ("\0" + a.markerValue), b.pointer, b.markerKey + ("\0" + b.markerValue));
      FirstNul(a.markerKey, a.markerValue, b.markerKey, b.markerValue);
    }
  }

  /** With a NUL in a pointer, operations on different pointers are taken for the same. */
  lemma NulConfusesPointers(p: string, k: string, m: string, v: string, e: Value)
    ensures SeenKey(EnsureMarkedArrayElement(p + ("\0" + k), m, v, e))
         == SeenKey(EnsureMarkedArrayElement(p, k, m + ("\0" + v), e))
  {
    Assoc(p, "\0" + k, "\0" + (m + ("\0" + v)));
    Assoc("\0", k, "\0" + (m + ("\0" + v)));
  }

  /** With a NUL in a marker key, two different markers on one pointer are taken for the same. */
  lemma NulConfusesMarkers(pointer: string, k: string, m: string, v: string, e: Value)
    ensures SeenKey(EnsureMarkedArrayElement(pointer, k + ("\0" + m), v, e))
         == SeenKey(EnsureMarkedArrayElement(pointer, k, m + ("\0" + v), e))
  {
    Assoc(k, "\0" + m, "\0" + v);
    Assoc("\0", m, "\0" + v);
  }

  predicate SameMarker(a: Operation, b: Operation) {
    a.pointer == b.pointer && a.markerKey == b.markerKey && a.markerValue == b.markerValue
  }

  predicate HoldsNul(op: Operation) {
    '\0' in op.pointer || '\0' in op.markerKey || '\0' in op.markerValue
  }

  function Nuls(s: string): nat {
    if s == "" then 0 else (if s[0] == '\0' then 1 else 0) + Nuls(s[1..])
  }

  lemma {:induction false} NulsAppend(a: string, b: string)
    ensures Nuls(a + b) == Nuls(a) + Nuls(b)
  {
    if a == "" {
      assert a + b == b;
    } else {
      assert (a + b)[1..] == a[1..] + b;
      NulsAppend(a[1..], b);
    }
  }

  lemma {:induction false} NoNuls(s: string)
    ensures Nuls(s) == 0 <==> '\0' !in s
  {
    if s != "" {
      NoNuls(s[1..]);
      assert s == [s[0]] + s[1..];
    }
  }

  lemma NulsInKey(op: Operation)
    ensures Nuls(SeenKey(op)) == Nuls(op.pointer) + Nuls(op.markerKey) + Nuls(op.markerValue) + 2
  {
    NulsAppend(op.markerKey, "\0" + op.markerValue);
    NulsAppend("\0", op.markerValue);
    NulsAppend(op.pointer, "\0" + (op.markerKey + ("\0" + op.markerValue)));
    NulsAppend("\0", op.markerKey + ("\0" + op.markerValue));
    assert Nuls("\0") == 1;
  }

  lemma CutAt(s: string, i: nat)
    requires i < |s| && s[i] == '\0'
    ensures s == s[..i] + ("\0" + s[i + 1..])
  {
  }

  lemma Confused(a: Operation) returns (b: Operation)
    requires HoldsNul(a)
    ensures SeenKey(a) == SeenKey(b) && !SameMarker(a, b)
  {
    if '\0' in a.pointer {
      var i :| 0 <= i < |a.pointer| && a.pointer[i] == '\0';
      CutAt(a.pointer, i);
      b := a.(pointer := a.pointer[..i], markerKey := a.pointer[i + 1..],
              markerValue := a.markerKey + ("\0" + a.markerValue));
      NulConfusesPointers(a.pointer[..i], a.pointer[i + 1..], a.markerKey, a.markerValue, a.element);
    } else if '\0' in a.markerKey {
      var i :| 0 <= i < |a.markerKey| && a.markerKey[i] == '\0';
      CutAt(a.markerKey, i);
      b := a.(markerKey := a.markerKey[..i], markerValue := a.markerKey[i + 1..] + ("\0" + a.markerValue));
      NulConfusesMarkers(a.pointer, a.markerKey[..i], a.markerKey[i + 1..], a.markerValue, a.element);
    } else {
      var i :| 0 <= i < |a.markerValue| && a.markerValue[i] == '\0';
      CutAt(a.markerValue, i);
      b := a.(markerKey := a.markerKey + ("\0" + a.markerValue[..i]), markerValue := a.markerValue[i + 1..]);
      NulConfusesMarkers(a.pointer, a.markerKey, a.markerValue[..i], a.markerValue[i + 1..], a.element);
    }
  }

  lemma NotConfused(a: Operation, b: Operation)
    requires !HoldsNul(a) && SeenKey(a) == SeenKey(b)
    ensures SameMarker(a, b)
  {
    NulsInKey(a);
    NulsInKey(b);
    NoNuls(a.pointer);
    NoNuls(a.markerKey);
    NoNuls(a.markerValue);
    NoNuls(b.pointer);
    NoNuls(b.markerKey);
    SameKeyIffSameMarker(a, b);
  }

  /** The exact condition: an operation is taken for some different one if and only if its pointer, marker key or marker
      value holds a NUL. */
  lemma ConfusableIff(a: Operation)
    ensures (exists b :: SeenKey(a) == SeenKey(b) && !SameMarker(a, b)) <==> HoldsNul(a)
  {
    if HoldsNul(a) {
      var b := Confused(a);
    } else {
      forall b | SeenKey(a) == SeenKey(b)
        ensures SameMarker(a, b)
      {
        NotConfused(a, b);
      }
    }
  }

  /** Two operations that are each acceptable alone and are taken for one another: together the second is refused as a
      duplicate, and with it the list. */
  lemma ConfusedPairRefused(a: Operation, b: Operation, size: Value -> nat)
    requires Acceptable([a], size) && Acceptable([b], size) && SeenKey(a) == SeenKey(b)
    ensures Problem([a, b], 0, size).None? && Problem([a, b], 1, size) == Some(DuplicateOperation(b.pointer))
    ensures !Acceptable([a, b], size)
  {
    AcceptableIffNoProblem([a], size);
    AcceptableIffNoProblem([b], size);
    assert Problem([a], 0, size).None? && Problem([b], 0, size).None?;
    var ops := [a, b];
    assert SeenKey(ops[0]) == SeenKey(ops[1]);
  }

  // ----- the limits in numbers

  /** A text is as long in UTF-8 as it has characters, and one more for each from U+0080 on, one more again from
      U+0800 on and from U+10000 on. */
  lemma {:induction false} ByteLengthIs(s: string)
    ensures ByteLength(s)
         == |s| + CountIf(s, (c: char) => c as int >= 0x80) + CountIf(s, (c: char) => c as int >= 0x800)
            + CountIf(s, (c: char) => c as int >= 0x10000)
  {
    if s != "" {
      ByteLengthIs(s[1..]);
    }
  }

  lemma {:induction false} SlashesAre(s: string)
    ensures Slashes(s) == CountIf(s, (c: char) => c == '/')
  {
    if s != "" {
      SlashesAre(s[1..]);
    }
  }

  /** What the checks accept: one to sixteen operations, each with a pointer of at most 256 bytes and 16 slashes that
      is empty or begins with one, and an element of at most 4096 bytes that carries the marker; no two alike. */
  lemma {:induction false} AcceptableMeans(ops: seq<Operation>, size: Value -> nat)
    ensures Acceptable(ops, size) <==>
      && 1 <= |ops| <= 16
      && (forall op | op in ops ::
            && ByteLength(op.pointer) <= 256 && (op.pointer == "" || op.pointer[0] == '/')
            && CountIf(op.pointer, (c: char) => c == '/') <= 16
            && size(op.element) <= 4096 && GetStr(op.element, op.markerKey) == Some(op.markerValue))
      && (forall i, j | 0 <= i < j < |ops| :: SeenKey(ops[i]) != SeenKey(ops[j]))
  {
    forall i | 0 <= i < |ops|
      ensures ops[i] in ops && Slashes(ops[i].pointer) == CountIf(ops[i].pointer, (c: char) => c == '/')
    {
      SlashesAre(ops[i].pointer);
    }
    forall op | op in ops
      ensures exists i | 0 <= i < |ops| :: ops[i] == op
    {
    }
  }

  /** Which problem of an operation is reported: its pointer's first, then that it is a repetition, its size, and its
      marker, with the text found in place of the marker's. */
  lemma {:induction false} ProblemSays(ops: seq<Operation>, i: nat, size: Value -> nat)
    requires i < |ops|
    ensures var op, p := ops[i], Problem(ops, i, size);
      var long := ByteLength(op.pointer) > 256;
      var bad := !long && op.pointer != "" && op.pointer[0] != '/';
      var deep := !long && !bad && Slashes(op.pointer) > 16;
      var again := !long && !bad && !deep && exists j | 0 <= j < i :: SeenKey(ops[j]) == SeenKey(op);
      var large := !long && !bad && !deep && !again && size(op.element) > 4096;
      && (p == Some(PointerTooLong(op.pointer)) <==> long)
      && (p == Some(InvalidPointer(op.pointer)) <==> bad)
      && (p == Some(PointerTooDeep(op.pointer)) <==> deep)
      && (p == Some(DuplicateOperation(op.pointer)) <==> again)
      && (p == Some(ElementTooLarge) <==> large)
      && (p.Some? && p.value.MarkerMismatch? ==>
            && p.value.markerKey == op.markerKey && p.value.expected == op.markerValue
            && (GetStr(op.element, op.markerKey) == Some(p.value.actual)
                || (GetStr(op.element, op.markerKey) == None && p.value.actual == "<missing>")))
  {
  }
}
