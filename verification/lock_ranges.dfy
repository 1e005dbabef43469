/** Byte-range arithmetic of 9P locks (zerofs/ninep-proto/src/slice_codec.rs).

    A range is a start and a length on 64 bits; a zero length extends to end of
    file. Every statement is about the set of bytes a range holds. */
module LockRanges {
  import opened Wrappers

  const U64_MAX: int := 0xFFFF_FFFF_FFFF_FFFF

  type u64 = x: int | 0 <= x <= U64_MAX

  datatype Range = Range(start: u64, length: u64) {
    /** Exclusive end; saturates, and a zero length means end of file. */
    function End(): u64 {
      if length == 0 || start + length > U64_MAX then U64_MAX else start + length
    }

    predicate Has(b: u64) {
      start <= b < End()
    }
  }

  /** No byte belongs to both. */
  predicate Apart(a: Range, b: Range) {
    a.start >= b.End() || b.start >= a.End() || a.start >= a.End() || b.start >= b.End()
  }

  lemma ApartIsDisjoint(a: Range, b: Range)
    ensures Apart(a, b) <==> forall x: u64 :: !(a.Has(x) && b.Has(x))
  {
    if !Apart(a, b) {
      var x := if a.start < b.start then b.start else a.start;
      assert a.Has(x) && b.Has(x);
    }
  }

  datatype Fragments = Fragments(left: Option<Range>, right: Option<Range>)

  /** What is left of `held` once `removed` is taken out. */
  function Subtract(held: Range, removed: Range): Fragments {
    if held.start >= removed.End() || removed.start >= held.End() then
      Fragments(Some(held), None)
    else
      var left :=
        if held.start < removed.start then
          var leftEnd := if removed.start < held.End() then removed.start else held.End();
          if held.start < leftEnd then Some(Range(held.start, leftEnd - held.start)) else None
        else None;
      var right :=
        if removed.End() < held.End() then
          var rightStart := if removed.End() < held.start then held.start else removed.End();
          if rightStart < held.End() then
            Some(Range(rightStart, if held.End() == U64_MAX then 0 else held.End() - rightStart))
          else None
        else None;
      Fragments(left, right)
  }

  predicate FragmentHas(f: Option<Range>, b: u64) {
    f.Some? && f.value.Has(b)
  }

  /** The fragments hold exactly the bytes of `held` outside `removed`, and no byte twice; the right one is
      open-ended exactly if `held` reaches the end of the file. */
  lemma SubtractIsDifference(held: Range, removed: Range)
    ensures var f := Subtract(held, removed);
            && (forall b: u64 :: held.Has(b) && !removed.Has(b) <==> FragmentHas(f.left, b) || FragmentHas(f.right, b))
            && (f.left.Some? ==> Apart(f.left.value, removed))
            && (f.right.Some? ==> Apart(f.right.value, removed))
            && (f.left.Some? && f.right.Some? ==> Apart(f.left.value, f.right.value))
            && (f.right.Some? ==> (f.right.value.length == 0 <==> held.End() == U64_MAX))
  {
    var f := Subtract(held, removed);
    if f.right.Some? {
      assert f.right.value.End() == held.End();
    }
    if f.left.Some? && f.left.value != held {
      assert f.left.value.End() == removed.start;
    }
  }

  /** Only a range that strictly surrounds a nonempty removal leaves two fragments. */
  lemma SplitSurrounds(held: Range, removed: Range)
    requires Subtract(held, removed).right.Some? && Subtract(held, removed).left.Some?
    ensures held.start < removed.start < removed.End() < held.End()
  {
  }

  /** Subtracting twice subtracts nothing more. */
  lemma SubtractIdempotent(held: Range, removed: Range)
    requires Apart(held, removed)
    ensures Subtract(held, removed) == Fragments(Some(held), None)
  {
  }
}
