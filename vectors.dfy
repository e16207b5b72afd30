// Motion vectors.  A vector is a displacement (x, y) into one of the
// reference planes (`dir` says which half-pixel shift of the previous frame),
// the block error it achieves, and optionally exactly four owned sub-vectors,
// one per 8x8 quadrant.  The sub-vectors are held through a `unique_ptr` to an
// array of four vectors, so copying deep-copies them and moving hands them
// over; the class below keeps that ownership in its `Repr` footprint.
module Vectors {

  /** Which reference plane a vector points into: the previous frame
      (`NoShift`, the source's NONE), or the previous frame shifted half a
      pixel up, left, or up and left. */
  datatype ShiftDir = NoShift | Up | Left | UpLeft

  datatype Option<T> = None | Some(value: T)

  /** `std::numeric_limits<long>::max()`: `long` is 32 bits wide on the
      target (32-bit x86 with inline assembly). */
  const LONG_MAX: int := 0x7FFF_FFFF

  /** The value of a vector: its fields and, when split, the values of its
      four sub-vectors. */
  datatype Motion = Motion(x: int, y: int, dir: ShiftDir, error: int, subs: Option<seq<Motion>>)

  /** What the default constructor gives: (0, 0, NONE, LONG_MAX), not split. */
  const DefaultMotion: Motion := Motion(0, 0, NoShift, LONG_MAX, None)

  /** The value after `Split`: same fields, four fresh default sub-vectors. */
  function SplitValue(m: Motion): (r: Motion)
    ensures r.x == m.x && r.y == m.y && r.dir == m.dir && r.error == m.error
    ensures r.subs.Some? && |r.subs.value| == 4
    ensures forall k :: 0 <= k < 4 ==> r.subs.value[k] == DefaultMotion
  {
    m.(subs := Some([DefaultMotion, DefaultMotion, DefaultMotion, DefaultMotion]))
  }

  /** The value after `Unsplit`: same fields, no sub-vectors. */
  function UnsplitValue(m: Motion): (r: Motion)
    ensures r.x == m.x && r.y == m.y && r.dir == m.dir && r.error == m.error && r.subs.None?
  {
    m.(subs := None)
  }

  /** `Unsplit` after `Split` gives back the leaf, and a second `Split`
      discards whatever the first one made. */
  lemma SplitUnsplit(m: Motion)
    ensures UnsplitValue(SplitValue(m)) == UnsplitValue(m)
    ensures m.subs.None? ==> UnsplitValue(SplitValue(m)) == m
    ensures SplitValue(SplitValue(m)) == SplitValue(m)
  {
  }

  /** Four distinct vectors, none of them split. */
  ghost predicate FourLeaves(c0: MV, c1: MV, c2: MV, c3: MV)
    reads c0, c1, c2, c3
  {
    c0.subvectors == null && c0.Repr == {c0} && c1.subvectors == null && c1.Repr == {c1} &&
    c2.subvectors == null && c2.Repr == {c2} && c3.subvectors == null && c3.Repr == {c3} &&
    c0 != c1 && c0 != c2 && c0 != c3 && c1 != c2 && c1 != c3 && c2 != c3
  }

  class MV {
    var x: int
    var y: int
    var dir: ShiftDir
    var error: int
    /** `std::unique_ptr<std::array<MV, 4>>`: null when not split. */
    var subvectors: array?<MV>
    ghost var Repr: set<object>

    /** The vector owns its sub-vector array and the four sub-vectors in it,
        four distinct leaves (nothing in the program splits a sub-vector). */
    ghost predicate Valid()
      reads this, Repr
    {
      this in Repr &&
      (subvectors == null ==> Repr == {this}) &&
      (subvectors != null ==>
        subvectors in Repr && subvectors.Length == 4 &&
        Repr == {this, subvectors, subvectors[0], subvectors[1], subvectors[2], subvectors[3]} &&
        FourLeaves(subvectors[0], subvectors[1], subvectors[2], subvectors[3]) &&
        this != subvectors[0] && this != subvectors[1] && this != subvectors[2] && this != subvectors[3])
    }

    /** The objects a vector with these sub-vectors owns. */
    ghost function Footprint(): set<object>
      reads this, subvectors
    {
      if subvectors == null || subvectors.Length != 4 then {this}
      else {this, subvectors, subvectors[0], subvectors[1], subvectors[2], subvectors[3]}
    }

    /** The fields of this vector alone, as a leaf. */
    ghost function Fields(): Motion
      reads this
    {
      Motion(x, y, dir, error, None)
    }

    ghost function Value(): Motion
      requires Valid()
      reads this, Repr
    {
      Motion(x, y, dir, error,
        if subvectors == null then None
        else Some([subvectors[0].Fields(), subvectors[1].Fields(), subvectors[2].Fields(), subvectors[3].Fields()]))
    }

    /** `MV(x, y, shift_dir, error)`: a leaf. */
    constructor (x: int, y: int, dir: ShiftDir, error: int)
      ensures Valid() && fresh(Repr)
      ensures Value() == Motion(x, y, dir, error, None)
    {
      this.x, this.y, this.dir, this.error := x, y, dir, error;
      subvectors := null;
      Repr := {this};
    }

    /** `MV()`: every argument defaulted. */
    constructor Default()
      ensures Valid() && fresh(Repr)
      ensures Value() == DefaultMotion
    {
      x, y, dir, error := 0, 0, NoShift, LONG_MAX;
      subvectors := null;
      Repr := {this};
    }

    /** The copy constructor: the fields, and a deep copy of the sub-vector
        array when there is one. */
    constructor Copy(other: MV)
      requires other.Valid()
      ensures Valid() && fresh(Repr)
      ensures Value() == other.Value()
    {
      x, y, dir, error := other.x, other.y, other.dir, other.error;
      var s := other.subvectors;
      if s == null {
        subvectors := null;
        Repr := {this};
      } else {
        var c0 := new MV(s[0].x, s[0].y, s[0].dir, s[0].error);
        var c1 := new MV(s[1].x, s[1].y, s[1].dir, s[1].error);
        var c2 := new MV(s[2].x, s[2].y, s[2].dir, s[2].error);
        var c3 := new MV(s[3].x, s[3].y, s[3].dir, s[3].error);
        var a := new MV[4][c0, c1, c2, c3];
        subvectors := a;
        Repr := {this, a, c0, c1, c2, c3};
      }
    }

    /** The move constructor: a default vector swapped with `other`, which
        is left a default leaf. */
    constructor Move(other: MV)
      requires other.Valid()
      modifies other
      ensures Valid() && other.Valid()
      ensures Value() == old(other.Value()) && other.Value() == DefaultMotion
      ensures Repr - {this} == old(other.Repr) - {other} && other.Repr == {other}
    {
      x, y, dir, error := 0, 0, NoShift, LONG_MAX;
      subvectors := null;
      Repr := {this};
      new;
      Swap(other);
    }

    /** The first half of `swap`: x, y, shift_dir and error change places;
        neither vector's sub-vectors are touched. */
    method SwapFields(other: MV)
      requires Valid() && other.Valid() && Repr !! other.Repr
      modifies this, other
      ensures Valid() && other.Valid()
      ensures Fields() == old(other.Fields()) && other.Fields() == old(Fields())
      ensures subvectors == old(subvectors) && other.subvectors == old(other.subvectors)
      ensures Repr == old(Repr) && other.Repr == old(other.Repr)
      ensures subvectors != null ==> unchanged(subvectors, subvectors[0], subvectors[1], subvectors[2], subvectors[3])
      ensures other.subvectors != null ==>
        unchanged(other.subvectors, other.subvectors[0], other.subvectors[1], other.subvectors[2], other.subvectors[3])
    {
      x, other.x := other.x, x;
      y, other.y := other.y, y;
      dir, other.dir := other.dir, dir;
      error, other.error := other.error, error;
    }

    /** `swap`: exchanges every field, sub-vectors included. */
    method Swap(other: MV)
      requires Valid() && other.Valid() && Repr !! other.Repr
      modifies this, other
      ensures Valid() && other.Valid()
      ensures Value() == old(other.Value()) && other.Value() == old(Value())
      ensures subvectors == old(other.subvectors) && other.subvectors == old(subvectors)
      ensures Repr - {this} == old(other.Repr) - {other} && other.Repr - {other} == old(Repr) - {this}
    {
      SwapFields(other);
      subvectors, other.subvectors := other.subvectors, subvectors;
      Repr := Footprint();
      other.Repr := other.Footprint();
    }

    /** `operator=(MV other)`, copy-and-swap: the argument is a copy of the
        right-hand side, swapped into this vector; the old sub-vectors leave
        with the copy.  The right-hand side is left as it was unless this
        vector is part of it. */
    method Assign(other: MV)
      requires Valid() && other.Valid()
      modifies this
      ensures Valid() && fresh(Repr - {this})
      ensures Value() == old(other.Value())
      ensures this !in old(other.Repr) ==> other.Valid() && other.Value() == old(other.Value())
    {
      var tmp := new MV.Copy(other);
      Swap(tmp);
    }

    /** `Split`: four fresh default sub-vectors replace any earlier ones. */
    method Split()
      requires Valid()
      modifies this
      ensures Valid() && fresh(Repr - {this})
      ensures Value() == SplitValue(old(Value()))
    {
      var c0 := new MV.Default();
      var c1 := new MV.Default();
      var c2 := new MV.Default();
      var c3 := new MV.Default();
      var a := new MV[4][c0, c1, c2, c3];
      subvectors := a;
      Repr := {this, a, c0, c1, c2, c3};
    }

    /** `Unsplit`: the sub-vectors are released. */
    method Unsplit()
      requires Valid()
      modifies this
      ensures Valid() && Repr == {this}
      ensures Value() == UnsplitValue(old(Value()))
    {
      subvectors := null;
      Repr := {this};
    }

    function IsSplit(): (b: bool)
      requires Valid()
      reads this, Repr
      ensures b <==> Value().subs.Some?
    {
      subvectors != null
    }

    /** `SubVector(id)`: a reference to sub-vector `id`, owned by this one. */
    function SubVector(id: int): (r: MV)
      requires Valid() && IsSplit() && 0 <= id < 4
      reads this, Repr
      ensures r in Repr && r != this && r.Valid() && r.Repr == {r}
      ensures r.Value() == Value().subs.value[id]
    {
      subvectors[id]
    }
  }
}
