/**
 * Trait membership at run time: each type has a bitmap of the ids it provides, and a
 * test of one word and one bit tells whether an id is among them.
 */
module TraitBitmap {
  import opened WordArith

  /** Bit b of a word. */
  predicate Bit(w: nat, b: nat) {
    w / Pow2(b) % 2 == 1
  }

  /** Setting one bit changes no other. */
  lemma {:induction false} OrSetsBit(w: nat, b: nat, c: nat)
    ensures Bit(Or(w, Pow2(b)), c) <==> Bit(w, c) || c == b
  {
    hide Bit;
    var p := Pow2(b);
    BitStep(w, c);
    BitStep(Or(w, p), c);
    if w == 0 {
      PowerBits(b, c);
    } else if b == 0 {
      assert p == 1 && p / 2 == 0;
      OrZero(w / 2);
    } else {
      var q := Pow2(b - 1);
      assert p == 2 * q && p / 2 == q && p % 2 == 0;
      assert Or(w, p) == 2 * Or(w / 2, q) + w % 2;
      if c > 0 {
        OrSetsBit(w / 2, b - 1, c - 1);
      }
    }
  }

  lemma BitStep(w: nat, c: nat)
    ensures Bit(w, c) <==> if c == 0 then w % 2 == 1 else Bit(w / 2, c - 1)
  {
    if c > 0 {
      DivDiv(w, 2, Pow2(c - 1));
    }
  }

  /** A power of two has one bit. */
  lemma {:induction false} PowerBits(b: nat, c: nat)
    ensures Or(0, Pow2(b)) == Pow2(b) && (Bit(Pow2(b), c) <==> c == b) && !Bit(0, c)
  {
    if c < b {
      Pow2Split(c, b);
      var k := Pow2(b - c - 1);
      assert Pow2(b) == 2 * k * Pow2(c);
      DivModUnique(Pow2(b), Pow2(c), 2 * k, 0);
    } else if c == b {
      DivModUnique(Pow2(b), Pow2(c), 1, 0);
    } else {
      Pow2Split(b + 1, c);
      DivModUnique(Pow2(b), Pow2(c), 0, Pow2(b));
    }
    DivModUnique(0, Pow2(c), 0, 0);
  }

  /** The two layouts: words of 32 or of 64 bits. */
  predicate IsLayout(shift: nat) {
    shift == 5 || shift == 6
  }

  /** The word of an id and its bit in that word. */
  function WordOf(id: nat, shift: nat): nat {
    DivBelow(id, Pow2(shift));
    id / Pow2(shift)
  }

  function BitOf(id: nat, shift: nat): (b: nat)
    ensures b < Pow2(shift)
  {
    id % Pow2(shift)
  }

  /** The test that is generated for a trait id. */
  predicate IsTrait(bitmap: seq<nat>, id: nat, shift: nat)
    requires WordOf(id, shift) < |bitmap|
  {
    And(bitmap[WordOf(id, shift)], Pow2(And(id, Pow2(shift) - 1))) != 0
  }

  lemma IsTraitBit(bitmap: seq<nat>, id: nat, shift: nat)
    requires WordOf(id, shift) < |bitmap|
    ensures IsTrait(bitmap, id, shift) <==> Bit(bitmap[WordOf(id, shift)], BitOf(id, shift))
  {
    AndMask(id, shift);
    AndBit(bitmap[WordOf(id, shift)], BitOf(id, shift));
  }

  lemma SameId(i: nat, j: nat, shift: nat)
    requires WordOf(i, shift) == WordOf(j, shift) && BitOf(i, shift) == BitOf(j, shift)
    ensures i == j
  {
    var p := Pow2(shift);
    assert i == WordOf(i, shift) * p + BitOf(i, shift) && j == WordOf(j, shift) * p + BitOf(j, shift);
  }

  /** The bitmap of a set of type ids; the test is true of exactly these. */
  method MakeBitmap(ids: set<nat>, size: nat, shift: nat) returns (bitmap: seq<nat>)
    requires IsLayout(shift) && forall id <- ids :: WordOf(id, shift) < size
    ensures |bitmap| == size
    ensures forall id :: WordOf(id, shift) < size ==> (IsTrait(bitmap, id, shift) <==> id in ids)
    ensures forall k :: 0 <= k < size ==> bitmap[k] < Pow2(Pow2(shift))
  {
    hide And, Or, Pow2, WordOf, BitOf, Holds, IsTrait;
    var bm := new nat[size](_ => 0);
    NoBits(bm[..], shift);
    ghost var done: set<nat> := {};
    var todo := ids;
    while todo != {}
      invariant todo <= ids && done == ids - todo && Holds(bm[..], done, shift)
      decreases |todo|
    {
      var id :| id in todo;
      var index, bit := WordOf(id, shift), BitOf(id, shift);
      ghost var was := bm[..];
      AddBit(was, done, shift, id);
      bm[index] := Or(bm[index], Pow2(bit));
      assert bm[..] == was[index := Or(was[index], Pow2(bit))];
      todo := todo - {id};
      done := done + {id};
    }
    bitmap := bm[..];
    assert done == ids;
    TestIsExact(bitmap, ids, shift);
  }

  /** The bits that are set are those of the ids, and no word is too wide. */
  ghost predicate Holds(bm: seq<nat>, ids: set<nat>, shift: nat) {
    (forall k :: 0 <= k < |bm| ==> bm[k] < Pow2(Pow2(shift))) &&
    forall id :: WordOf(id, shift) < |bm| ==> (Bit(bm[WordOf(id, shift)], BitOf(id, shift)) <==> id in ids)
  }

  lemma TestIsExact(bm: seq<nat>, ids: set<nat>, shift: nat)
    requires Holds(bm, ids, shift)
    ensures forall id :: WordOf(id, shift) < |bm| ==> (IsTrait(bm, id, shift) <==> id in ids)
    ensures forall k :: 0 <= k < |bm| ==> bm[k] < Pow2(Pow2(shift))
  {
    hide Pow2, Bit, WordOf, BitOf, IsTrait;
    forall id | WordOf(id, shift) < |bm|
      ensures IsTrait(bm, id, shift) <==> id in ids
    {
      IsTraitBit(bm, id, shift);
    }
  }

  lemma NoBits(bm: seq<nat>, shift: nat)
    requires forall k :: 0 <= k < |bm| ==> bm[k] == 0
    ensures Holds(bm, {}, shift)
  {
    hide Bit, WordOf, BitOf;
    forall c: nat
      ensures !Bit(0, c)
    {
      PowerBits(0, c);
    }
  }

  lemma AddBit(bm: seq<nat>, done: set<nat>, shift: nat, id: nat)
    requires WordOf(id, shift) < |bm| && Holds(bm, done, shift)
    ensures Holds(bm[WordOf(id, shift) := Or(bm[WordOf(id, shift)], Pow2(BitOf(id, shift)))], done + {id}, shift)
  {
    hide Or, Pow2, Bit, WordOf, BitOf;
    var index, bit := WordOf(id, shift), BitOf(id, shift);
    var w := Or(bm[index], Pow2(bit));
    Pow2Split(bit + 1, Pow2(shift));
    PowDoubles(bit);
    OrBound(bm[index], Pow2(bit), Pow2(shift));
    var next := bm[index := w];
    forall i | WordOf(i, shift) < |bm|
      ensures Bit(next[WordOf(i, shift)], BitOf(i, shift)) <==> i in done + {id}
    {
      if WordOf(i, shift) == index {
        OrSetsBit(bm[index], bit, BitOf(i, shift));
        if BitOf(i, shift) == bit {
          SameId(i, id, shift);
        }
      }
    }
  }

  lemma PowDoubles(n: nat)
    ensures Pow2(n) < Pow2(n + 1)
  {
  }
}
