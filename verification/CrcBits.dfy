/** The CRC register as 32 separate bits, least significant first. */
module CrcBits {

  type Word = r: seq<bool> | |r| == 32 witness seq(32, i => false)

  /** A reflected generator polynomial: its lowest coefficient, last in this order, is set. */
  type Poly = p: Word | p[31] witness seq(32, i => true)

  function Xor(a: Word, b: Word): Word {
    seq(32, i requires 0 <= i < 32 => a[i] != b[i])
  }

  const ZERO: Word := seq(32, i => false)

  function Down(r: Word): Word {
    r[1..] + [false]
  }

  /** One step of the register. */
  function Step(r: Word, poly: Poly): Word {
    if r[0] then Xor(Down(r), poly) else Down(r)
  }

  /** A word that is one bit followed by zeros. */
  function Unit(bit: bool): Word {
    [bit] + seq(31, i => false)
  }

  /** Feeding bits one by one. */
  function Fed(w: seq<bool>, r: Word, poly: Poly): Word {
    if w == [] then r else Fed(w[1..], Step(Xor(r, Unit(w[0])), poly), poly)
  }

  lemma StepLinear(a: Word, b: Word, poly: Poly)
    ensures Step(Xor(a, b), poly) == Xor(Step(a, poly), Step(b, poly))
  {
  }

  /** A step whose result ends in a zero did not meet the polynomial. */
  lemma Unstep(z: Word, poly: Poly)
    requires !Step(z, poly)[31]
    ensures !z[0] && Step(z, poly) == Down(z)
  {
    assert poly[31];
  }

  /** All bits from position `n` on are zero. */
  predicate Below(d: Word, n: nat) {
    forall i | n <= i < 32 :: !d[i]
  }

  lemma WindowStep(a: Word, b: Word, p: bool, q: bool, n: nat, poly: Poly)
    requires 1 <= n <= 32 && Below(Xor(Step(Xor(a, Unit(p)), poly), Step(Xor(b, Unit(q)), poly)), n - 1)
    ensures Below(Xor(a, b), n)
    ensures Xor(a, b) == ZERO ==> p == q && Step(Xor(a, Unit(p)), poly) == Step(Xor(b, Unit(q)), poly)
  {
    var u, v := Xor(a, Unit(p)), Xor(b, Unit(q));
    var z, d := Xor(u, v), Xor(a, b);
    StepLinear(u, v, poly);
    Unstep(z, poly);
    forall i | n <= i < 32
      ensures !d[i]
    {
      assert !Down(z)[i - 1] && z[i] == d[i];
    }
    if d == ZERO {
      forall i | 0 <= i < 32
        ensures a[i] == b[i]
      {
        assert d[i] == ZERO[i];
      }
      assert a == b && z[0] == (p != q);
    }
  }

  /** At most 32 bits bring two registers together only in one way: equal bits from equal registers. */
  lemma {:induction false} WindowDetermined(w: seq<bool>, v: seq<bool>, a: Word, b: Word, poly: Poly)
    requires |w| == |v| <= 32 && Fed(w, a, poly) == Fed(v, b, poly)
    ensures Below(Xor(a, b), |w|)
    ensures a == b ==> w == v
  {
    if w != [] {
      var a', b' := Step(Xor(a, Unit(w[0])), poly), Step(Xor(b, Unit(v[0])), poly);
      WindowDetermined(w[1..], v[1..], a', b', poly);
      WindowStep(a, b, w[0], v[0], |w|, poly);
      if a == b {
        assert Xor(a, b) == ZERO;
        assert w == [w[0]] + w[1..] && v == [v[0]] + v[1..];
      }
    }
  }

  lemma StepInjective(a: Word, b: Word, poly: Poly)
    requires Step(a, poly) == Step(b, poly)
    ensures a == b
  {
    StepLinear(a, b, poly);
    var z := Xor(a, b);
    assert Step(z, poly) == ZERO;
    Unstep(z, poly);
    forall i | 0 <= i < 32
      ensures a[i] == b[i]
    {
      assert i > 0 ==> Down(z)[i - 1] == ZERO[i - 1];
      assert z[i] == (a[i] != b[i]);
    }
  }

  lemma XorInjective(a: Word, b: Word, p: Word)
    requires Xor(a, p) == Xor(b, p)
    ensures a == b
  {
    forall i | 0 <= i < 32
      ensures a[i] == b[i]
    {
      assert Xor(a, p)[i] == Xor(b, p)[i];
    }
  }

  /** The same bits never bring different registers together. */
  lemma {:induction false} FedInjective(w: seq<bool>, a: Word, b: Word, poly: Poly)
    requires Fed(w, a, poly) == Fed(w, b, poly)
    ensures a == b
  {
    if w != [] {
      var p := Unit(w[0]);
      FedInjective(w[1..], Step(Xor(a, p), poly), Step(Xor(b, p), poly), poly);
      StepInjective(Xor(a, p), Xor(b, p), poly);
      XorInjective(a, b, p);
    }
  }

  lemma {:induction false} FedAppend(w: seq<bool>, v: seq<bool>, r: Word, poly: Poly)
    ensures Fed(w + v, r, poly) == Fed(v, Fed(w, r, poly), poly)
  {
    if w == [] {
      assert w + v == v;
    } else {
      assert (w + v)[1..] == w[1..] + v;
      FedAppend(w[1..], v, Step(Xor(r, Unit(w[0])), poly), poly);
    }
  }

  lemma {:induction false} FedAround(head: seq<bool>, w: seq<bool>, tail: seq<bool>, r: Word, poly: Poly)
    ensures Fed(head + (w + tail), r, poly) == Fed(tail, Fed(w, Fed(head, r, poly), poly), poly)
  {
    FedAppend(head, w + tail, r, poly);
    FedAppend(w, tail, Fed(head, r, poly), poly);
  }

  /** Two messages that differ, and only inside a window of at most 32 bits, leave different registers. */
  lemma BurstDetected(x: seq<bool>, y: seq<bool>, from: nat, n: nat, r: Word, poly: Poly)
    requires |x| == |y| && x != y && n <= 32 && from + n <= |x|
    requires x[..from] == y[..from] && x[from + n..] == y[from + n..]
    ensures Fed(x, r, poly) != Fed(y, r, poly)
  {
    var head, w, v, tail := x[..from], x[from..from + n], y[from..from + n], x[from + n..];
    assert x == head + (w + tail) && y == head + (v + tail);
    FedAround(head, w, tail, r, poly);
    FedAround(head, v, tail, r, poly);
    var c := Fed(head, r, poly);
    if Fed(x, r, poly) == Fed(y, r, poly) {
      FedInjective(tail, Fed(w, c, poly), Fed(v, c, poly), poly);
      WindowDetermined(w, v, c, c, poly);
      assert false;
    }
  }

  // ----- several bits at once

  function StepN(n: nat, r: Word, poly: Poly): Word {
    if n == 0 then r else StepN(n - 1, Step(r, poly), poly)
  }

  function Pad(w: seq<bool>): Word
    requires |w| <= 32
  {
    w + seq(32 - |w|, i => false)
  }

  function Up(r: Word): Word {
    [false] + r[..31]
  }

  lemma PadSplits(w: seq<bool>, r: Word)
    requires 0 < |w| <= 32
    ensures Xor(r, Pad(w)) == Xor(Xor(r, Unit(w[0])), Up(Pad(w[1..])))
    ensures !Pad(w[1..])[31]
  {
  }

  lemma StepUp(a: Word, x: Word, poly: Poly)
    requires !x[31]
    ensures Step(Xor(a, Up(x)), poly) == Xor(Step(a, poly), x)
  {
    StepLinear(a, Up(x), poly);
    assert Down(Up(x)) == x;
  }

  lemma XorNothing(r: Word)
    ensures Xor(r, Pad([])) == r
  {
  }

  /** Feeding up to 32 bits one by one is adding them all at once and then stepping that often. */
  lemma {:induction false} FedIsSteps(w: seq<bool>, r: Word, poly: Poly)
    requires |w| <= 32
    ensures Fed(w, r, poly) == StepN(|w|, Xor(r, Pad(w)), poly)
  {
    if w == [] {
      XorNothing(r);
    } else {
      var next := Step(Xor(r, Unit(w[0])), poly);
      PadSplits(w, r);
      StepUp(Xor(r, Unit(w[0])), Pad(w[1..]), poly);
      FedIsSteps(w[1..], next, poly);
    }
  }
}
