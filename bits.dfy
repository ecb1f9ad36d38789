/** Unsigned bit fields packed into a machine word, lowest field first, the
    way the C bit-field unions of the drivers are laid out on the
    little-endian targets they are built for. A layout is the list of field
    widths; field i starts at the sum of the widths before it. Shifts and
    masks are defined bit by bit, so that every proof step is linear. */
module Bits {

  function Pow2(n: nat): (r: nat)
    ensures r > 0
  {
    if n == 0 then 1 else 2 * Pow2(n - 1)
  }

  /** `x << n` */
  function Shl(x: nat, n: nat): nat {
    if n == 0 then x else 2 * Shl(x, n - 1)
  }

  /** `x >> n` */
  function Shr(x: nat, n: nat): nat {
    if n == 0 then x else Shr(x / 2, n - 1)
  }

  /** `x & ((1 << n) - 1)`: the low n bits of x. */
  function Low(x: nat, n: nat): nat {
    if n == 0 then 0 else x % 2 + 2 * Low(x / 2, n - 1)
  }

  lemma {:induction false} ShlIsProduct(x: nat, n: nat)
    ensures Shl(x, n) == x * Pow2(n)
  {
    if n > 0 {
      ShlIsProduct(x, n - 1);
      assert 2 * (x * Pow2(n - 1)) == x * (2 * Pow2(n - 1));
    }
  }

  lemma {:induction false} ShlAdd(x: nat, m: nat, n: nat)
    ensures Shl(Shl(x, m), n) == Shl(x, m + n)
  {
    if n > 0 {
      ShlAdd(x, m, n - 1);
    }
  }

  lemma {:induction false} ShrAdd(x: nat, m: nat, n: nat)
    ensures Shr(Shr(x, m), n) == Shr(x, m + n)
    decreases m
  {
    if m > 0 {
      ShrAdd(x / 2, m - 1, n);
    }
  }

  /** The low n bits fit n bits. */
  lemma {:induction false} LowBound(x: nat, n: nat)
    ensures Low(x, n) < Pow2(n)
  {
    if n > 0 {
      LowBound(x / 2, n - 1);
    }
  }

  /** Every word is its low n bits plus its high part shifted back. */
  lemma {:induction false} Split(x: nat, n: nat)
    ensures x == Low(x, n) + Shl(Shr(x, n), n)
  {
    if n > 0 {
      Split(x / 2, n - 1);
      ShlOfShr(x, n);
    }
  }

  lemma ShlOfShr(x: nat, n: nat)
    requires n > 0
    ensures Shl(Shr(x, n), n) == 2 * Shl(Shr(x / 2, n - 1), n - 1)
  {
  }

  /** A word built from a low part that fits n bits and a high part gives
      both back. */
  lemma {:induction false} Join(lo: nat, hi: nat, n: nat)
    requires lo < Pow2(n)
    ensures Low(lo + Shl(hi, n), n) == lo
    ensures Shr(lo + Shl(hi, n), n) == hi
  {
    if n > 0 {
      var x := lo + Shl(hi, n);
      assert x / 2 == lo / 2 + Shl(hi, n - 1) && x % 2 == lo % 2;
      Join(lo / 2, hi, n - 1);
    }
  }

  /** The powers of two up to a 16-bit word. */
  lemma Pow2Values()
    ensures Pow2(0) == 1 && Pow2(1) == 2 && Pow2(2) == 4 && Pow2(3) == 8 && Pow2(4) == 16
    ensures Pow2(7) == 0x80 && Pow2(8) == 0x100 && Pow2(9) == 0x200 && Pow2(11) == 0x800
    ensures Pow2(12) == 0x1000 && Pow2(16) == 0x1_0000
  {
    assert Pow2(2) == 4;
    assert Pow2(4) == 16;
    assert Pow2(6) == 64;
    assert Pow2(8) == 0x100;
    assert Pow2(10) == 0x400;
    assert Pow2(12) == 0x1000;
    assert Pow2(14) == 0x4000;
  }

  /** The total width of a layout. */
  function Sum(widths: seq<nat>): nat {
    if widths == [] then 0 else widths[0] + Sum(widths[1..])
  }

  /** The offset of field i + 1 is the offset of field i plus its width. */
  lemma {:induction false} SumPrefix(widths: seq<nat>, i: nat)
    requires i < |widths|
    ensures Sum(widths[..i + 1]) == Sum(widths[..i]) + widths[i]
    decreases i
  {
    if i == 0 {
      assert widths[..1] == [widths[0]];
      assert widths[..0] == [];
    } else {
      SumPrefix(widths[1..], i - 1);
      assert widths[..i + 1] == [widths[0]] + widths[1..][..i];
      assert widths[..i] == [widths[0]] + widths[1..][..i - 1];
    }
  }

  /** Every field value fits its width. */
  predicate Fits(fields: seq<nat>, widths: seq<nat>) {
    |fields| == |widths| && forall i :: 0 <= i < |fields| ==> fields[i] < Pow2(widths[i])
  }

  /** The word holding `fields` under layout `widths`. */
  function Pack(fields: seq<nat>, widths: seq<nat>): nat
    requires |fields| == |widths|
  {
    if widths == [] then 0 else fields[0] + Shl(Pack(fields[1..], widths[1..]), widths[0])
  }

  /** The fields of word `w` under layout `widths`. */
  function Unpack(w: nat, widths: seq<nat>): (fields: seq<nat>)
    ensures |fields| == |widths|
    decreases |widths|
  {
    if widths == [] then [] else [Low(w, widths[0])] + Unpack(Shr(w, widths[0]), widths[1..])
  }

  lemma FitsTail(fields: seq<nat>, widths: seq<nat>)
    requires Fits(fields, widths) && widths != []
    ensures Fits(fields[1..], widths[1..]) && fields[0] < Pow2(widths[0])
  {
    forall i | 0 <= i < |fields| - 1 ensures fields[1..][i] < Pow2(widths[1..][i]) {
      assert fields[1..][i] == fields[i + 1];
    }
  }

  lemma {:induction false} UnpackFits(w: nat, widths: seq<nat>)
    ensures Fits(Unpack(w, widths), widths)
    decreases |widths|
  {
    if widths != [] {
      UnpackFits(Shr(w, widths[0]), widths[1..]);
      LowBound(w, widths[0]);
      var f := Unpack(w, widths);
      forall i | 0 <= i < |f| ensures f[i] < Pow2(widths[i]) {
        if i > 0 {
          assert f[i] == Unpack(Shr(w, widths[0]), widths[1..])[i - 1];
        }
      }
    }
  }

  /** A packed word fits the layout's total width. */
  lemma {:induction false} PackBound(fields: seq<nat>, widths: seq<nat>)
    requires Fits(fields, widths)
    ensures Pack(fields, widths) < Pow2(Sum(widths))
    decreases |widths|
  {
    if widths != [] {
      FitsTail(fields, widths);
      var tail := Pack(fields[1..], widths[1..]);
      PackBound(fields[1..], widths[1..]);
      ShlBound(fields[0], tail, widths[0], Sum(widths[1..]));
    }
  }

  lemma {:induction false} ShlBound(lo: nat, hi: nat, n: nat, m: nat)
    requires lo < Pow2(n) && hi < Pow2(m)
    ensures lo + Shl(hi, n) < Pow2(n + m)
  {
    if n > 0 {
      ShlBound(lo / 2, hi, n - 1, m);
    } else {
      assert lo == 0;
    }
  }

  /** Unpacking a packed word gives back the fields. */
  lemma {:induction false} UnpackPack(fields: seq<nat>, widths: seq<nat>)
    requires Fits(fields, widths)
    ensures Unpack(Pack(fields, widths), widths) == fields
    decreases |widths|
  {
    if widths != [] {
      FitsTail(fields, widths);
      Join(fields[0], Pack(fields[1..], widths[1..]), widths[0]);
      UnpackPack(fields[1..], widths[1..]);
      assert [fields[0]] + fields[1..] == fields;
    }
  }

  /** Packing the fields of a word that fits the layout gives back the word. */
  lemma {:induction false} PackUnpack(w: nat, widths: seq<nat>)
    requires w < Pow2(Sum(widths))
    ensures Pack(Unpack(w, widths), widths) == w
    decreases |widths|
  {
    if widths != [] {
      ShrBound(w, widths[0], Sum(widths[1..]));
      PackUnpack(Shr(w, widths[0]), widths[1..]);
      Split(w, widths[0]);
      var f := Unpack(w, widths);
      assert f[0] == Low(w, widths[0]) && f[1..] == Unpack(Shr(w, widths[0]), widths[1..]);
    }
  }

  lemma {:induction false} ShrBound(w: nat, n: nat, m: nat)
    requires w < Pow2(n + m)
    ensures Shr(w, n) < Pow2(m)
  {
    if n > 0 {
      ShrBound(w / 2, n - 1, m);
    }
  }

  /** Field i of a word is the word shifted right by the widths before it,
      masked to its own width. */
  lemma {:induction false} FieldAt(w: nat, widths: seq<nat>, i: nat)
    requires i < |widths|
    ensures Unpack(w, widths)[i] == Low(Shr(w, Sum(widths[..i])), widths[i])
    decreases i
  {
    if i > 0 {
      FieldAt(Shr(w, widths[0]), widths[1..], i - 1);
      assert widths[..i] == [widths[0]] + widths[1..][..i - 1];
      assert Sum(widths[..i]) == widths[0] + Sum(widths[1..][..i - 1]);
      ShrAdd(w, widths[0], Sum(widths[1..][..i - 1]));
    } else {
      assert widths[..0] == [];
    }
  }

  /** The shift and mask are division and remainder by the power of two. */
  lemma ShiftMask(x: nat, n: nat)
    ensures Shr(x, n) == x / Pow2(n) && Low(x, n) == x % Pow2(n)
  {
    Split(x, n);
    LowBound(x, n);
    ShlIsProduct(Shr(x, n), n);
    DivModUnique(x, Pow2(n), Shr(x, n), Low(x, n));
  }

  lemma DivModUnique(x: int, k: int, q: int, r: int)
    requires k > 0 && 0 <= r < k && x == q * k + r
    ensures x / k == q && x % k == r
  {
    var q', r' := x / k, x % k;
    MulSub(q, q', k);
    if q > q' {
      MulAtLeast(q - q', k);
    } else if q < q' {
      MulAtLeast(q' - q, k);
    }
  }

  lemma MulSub(a: int, b: int, k: int)
    ensures a * k - b * k == (a - b) * k
  {
  }

  lemma MulAtLeast(a: int, k: int)
    requires a >= 1 && k > 0
    ensures a * k >= k
  {
  }
}
