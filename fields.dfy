// Splitting interlaced frames into their two fields (homework03's
// `extract_fields`).  An interlaced frame holds two half-height pictures
// taken at different instants: one in its even rows (the top field), one in
// its odd rows (the bottom field).  The fields come out as a sequence of
// half-height images, two per frame, in the order they were shot: top field
// first or bottom field first.
module Fields {
  import opened Grid

  /** An image: rows of pixels, each pixel a list of channel samples. */
  type Image = seq<seq<seq<Byte>>>

  /** An image of `h` rows of `w` pixels of `c` channels. */
  predicate IsImage(img: Image, h: int, w: int, c: int)
  {
    |img| == h && forall r :: 0 <= r < h ==> |img[r]| == w && forall x :: 0 <= x < w ==> |img[r][x]| == c
  }

  /** A video whose frames are all `h` x `w` x `c`: the four axes of the
      array `extract_fields` receives. */
  predicate IsVideo(frames: seq<Image>, h: int, w: int, c: int)
  {
    forall k :: 0 <= k < |frames| ==> IsImage(frames[k], h, w, c)
  }

  /** The all-zero image of `h` rows of `w` pixels of `c` channels. */
  function Zeros(h: nat, w: nat, c: nat): (img: Image)
    ensures IsImage(img, h, w, c)
  {
    seq(h, _ => seq(w, _ => seq(c, _ => 0)))
  }

  /** Which rows of its frame field `f` takes: 0 for the even rows, 1 for
      the odd rows.  The first field of each pair is the top one exactly
      when the top field comes first. */
  function RowParity(f: int, topFieldFirst: bool): int
  {
    if (f % 2 == 0) == topFieldFirst then 0 else 1
  }

  /** The fields of a video: field `f` is the every-other-row picture of
      frame `f / 2` that starts at row `RowParity(f, ...)`; it has `h / 2`
      rows. */
  function FieldsOf(frames: seq<Image>, h: int, topFieldFirst: bool): (fs: seq<Image>)
    requires forall k :: 0 <= k < |frames| ==> |frames[k]| == h
    ensures |fs| == 2 * |frames|
  {
    seq(2 * |frames|, f requires 0 <= f < 2 * |frames| =>
      seq(h / 2, r requires 0 <= r < h / 2 => frames[f / 2][2 * r + RowParity(f, topFieldFirst)]))
  }

  /** Every other row of `frame` from row `start` (0 or 1) on, `count` of
      them. */
  function Strided(frame: Image, start: int, count: int): (rows: Image)
    requires 0 <= start <= 1 && 0 <= count && 2 * count <= |frame|
    ensures |rows| == count
  {
    seq(count, r requires 0 <= r < count => frame[start + 2 * r])
  }

  /** `extract_fields(interlaced, top_field_first)`: allocates the
      `2 * num_frames` zero fields of `height // 2` rows, then fills the
      first field of every pair with the even rows of its frame and the
      second with the odd rows, or the other way round when the bottom field
      comes first. */
  method ExtractFields(interlaced: seq<Image>, height: nat, width: nat, channels: nat, topFieldFirst: bool)
    returns (fields: array<Image>)
    requires IsVideo(interlaced, height, width, channels)
    ensures fields[..] == FieldsOf(interlaced, height, topFieldFirst)
  {
    var numFrames := |interlaced|;
    var fieldHeight := height / 2;
    fields := new Image[numFrames * 2](_ => Zeros(fieldHeight, width, channels));
    var first, second := 0, 1;
    if !topFieldFirst {
      first, second := 1, 0;
    }
    // the even rows go to the first field of every pair
    AssignStrided(fields, interlaced, height, topFieldFirst, first, 0);
    // the odd rows go to the second
    AssignStrided(fields, interlaced, height, topFieldFirst, second, 1);
    assert fields[..] == FieldsOf(interlaced, height, topFieldFirst);
  }

  /** One strided slice assignment: field `slot + 2k` takes every other
      row of frame k from row `start`, `height / 2` of them; the other
      fields keep their contents. */
  method AssignStrided(fields: array<Image>, interlaced: seq<Image>, height: nat, topFieldFirst: bool,
                       slot: int, start: int)
    requires forall j :: 0 <= j < |interlaced| ==> |interlaced[j]| == height
    requires fields.Length == 2 * |interlaced| && 0 <= start <= 1
    requires slot == if (start == 0) == topFieldFirst then 0 else 1
    modifies fields
    ensures forall f :: 0 <= f < fields.Length ==>
      fields[f] == if RowParity(f, topFieldFirst) == start then FieldsOf(interlaced, height, topFieldFirst)[f]
                   else old(fields[f])
  {
    ghost var want := FieldsOf(interlaced, height, topFieldFirst);
    var k := 0;
    while k < |interlaced|
      invariant 0 <= k <= |interlaced|
      invariant forall f :: 0 <= f < fields.Length ==>
        fields[f] == if f % 2 == slot && f < slot + 2 * k then want[f] else old(fields[f])
    {
      FieldIsStrided(interlaced, height, topFieldFirst, slot + 2 * k, k, start);
      fields[slot + 2 * k] := Strided(interlaced[k], start, height / 2);
      k := k + 1;
    }
  }

  /** Field `f` of the second or first kind of frame `k` is the strided
      slice of that frame from row `start`. */
  lemma {:induction false} FieldIsStrided(frames: seq<Image>, h: int, topFieldFirst: bool, f: int, k: int, start: int)
    requires forall j :: 0 <= j < |frames| ==> |frames[j]| == h
    requires 0 <= k < |frames| && 0 <= start <= 1 && 0 <= h
    requires f == 2 * k + (if (start == 0) == topFieldFirst then 0 else 1)
    ensures 0 <= f < 2 * |frames| && f / 2 == k && f % 2 == (if (start == 0) == topFieldFirst then 0 else 1)
    ensures FieldsOf(frames, h, topFieldFirst)[f] == Strided(frames[k], start, h / 2)
  {
    var a, b := FieldsOf(frames, h, topFieldFirst)[f], Strided(frames[k], start, h / 2);
    assert RowParity(f, topFieldFirst) == start;
    forall r | 0 <= r < h / 2
      ensures a[r] == b[r]
    {
    }
  }

  /** Every field is a `height // 2` x `width` x `channels` image, and
      there are two per frame. */
  lemma {:induction false} FieldsShape(frames: seq<Image>, h: int, w: int, c: int, topFieldFirst: bool)
    requires 0 <= h && IsVideo(frames, h, w, c)
    ensures |FieldsOf(frames, h, topFieldFirst)| == 2 * |frames|
    ensures IsVideo(FieldsOf(frames, h, topFieldFirst), h / 2, w, c)
  {
    var fs := FieldsOf(frames, h, topFieldFirst);
    forall f | 0 <= f < |fs|
      ensures IsImage(fs[f], h / 2, w, c)
    {
      assert IsImage(frames[f / 2], h, w, c);
      forall r | 0 <= r < h / 2
        ensures |fs[f][r]| == w && forall x :: 0 <= x < w ==> |fs[f][r][x]| == c
      {
        assert fs[f][r] == frames[f / 2][2 * r + RowParity(f, topFieldFirst)];
      }
    }
  }

  /** With the top field first, field 2k is the even rows of frame k and
      field 2k + 1 its odd rows; with the bottom field first the two trade
      places. */
  lemma {:induction false} FieldOrder(frames: seq<Image>, h: int, topFieldFirst: bool, k: int, r: int)
    requires forall j :: 0 <= j < |frames| ==> |frames[j]| == h
    requires 0 <= k < |frames| && 0 <= r < h / 2
    ensures 2 * k + 1 < |FieldsOf(frames, h, topFieldFirst)|
    ensures |FieldsOf(frames, h, topFieldFirst)[2 * k]| == h / 2
    ensures |FieldsOf(frames, h, topFieldFirst)[2 * k + 1]| == h / 2
    ensures topFieldFirst ==> FieldsOf(frames, h, topFieldFirst)[2 * k][r] == frames[k][2 * r] &&
                              FieldsOf(frames, h, topFieldFirst)[2 * k + 1][r] == frames[k][2 * r + 1]
    ensures !topFieldFirst ==> FieldsOf(frames, h, topFieldFirst)[2 * k][r] == frames[k][2 * r + 1] &&
                               FieldsOf(frames, h, topFieldFirst)[2 * k + 1][r] == frames[k][2 * r]
  {
    var fs := FieldsOf(frames, h, topFieldFirst);
    assert (2 * k) / 2 == k && (2 * k) % 2 == 0;
    assert (2 * k + 1) / 2 == k && (2 * k + 1) % 2 == 1;
    assert fs[2 * k][r] == frames[k][2 * r + RowParity(2 * k, topFieldFirst)];
    assert fs[2 * k + 1][r] == frames[k][2 * r + RowParity(2 * k + 1, topFieldFirst)];
  }

  /** Interleaving a top and a bottom field row by row: the frame the two
      fields were cut from. */
  function Weave(top: Image, bottom: Image): (frame: Image)
    requires |top| == |bottom|
    ensures |frame| == 2 * |top|
  {
    seq(2 * |top|, i requires 0 <= i < 2 * |top| => if i % 2 == 0 then top[i / 2] else bottom[i / 2])
  }

  /** The index of the top field of frame `k`. */
  function TopField(k: int, topFieldFirst: bool): int
  {
    if topFieldFirst then 2 * k else 2 * k + 1
  }

  /** The index of the bottom field of frame `k`. */
  function BottomField(k: int, topFieldFirst: bool): int
  {
    if topFieldFirst then 2 * k + 1 else 2 * k
  }

  /** Row `i` of the two fields of frame `k` woven together is row `i` of
      the frame. */
  lemma {:induction false} WovenRow(frames: seq<Image>, h: int, topFieldFirst: bool, k: int, i: int)
    requires 0 <= h && forall j :: 0 <= j < |frames| ==> |frames[j]| == h
    requires 0 <= k < |frames| && 0 <= i < 2 * (h / 2)
    ensures TopField(k, topFieldFirst) < |FieldsOf(frames, h, topFieldFirst)|
    ensures BottomField(k, topFieldFirst) < |FieldsOf(frames, h, topFieldFirst)|
    ensures i / 2 < |FieldsOf(frames, h, topFieldFirst)[TopField(k, topFieldFirst)]|
    ensures i / 2 < |FieldsOf(frames, h, topFieldFirst)[BottomField(k, topFieldFirst)]|
    ensures (if i % 2 == 0 then FieldsOf(frames, h, topFieldFirst)[TopField(k, topFieldFirst)][i / 2]
             else FieldsOf(frames, h, topFieldFirst)[BottomField(k, topFieldFirst)][i / 2]) == frames[k][i]
  {
    var fs := FieldsOf(frames, h, topFieldFirst);
    var t, b := TopField(k, topFieldFirst), BottomField(k, topFieldFirst);
    assert t / 2 == k && b / 2 == k && RowParity(t, topFieldFirst) == 0 && RowParity(b, topFieldFirst) == 1;
    assert 2 * (i / 2) + i % 2 == i;
    if i % 2 == 0 {
      assert fs[t][i / 2] == frames[k][2 * (i / 2) + RowParity(t, topFieldFirst)];
    } else {
      assert fs[b][i / 2] == frames[k][2 * (i / 2) + RowParity(b, topFieldFirst)];
    }
  }

  /** Weaving the two fields of a frame back together gives the frame: all
      of it when its height is even, all but its last row when it is odd.
      So every sample is copied unchanged, each row goes to exactly one
      field, and only the last row of an odd-height frame is lost. */
  lemma {:induction false} WeaveRestoresFrame(frames: seq<Image>, h: int, topFieldFirst: bool, k: int)
    requires 0 <= h && forall j :: 0 <= j < |frames| ==> |frames[j]| == h
    requires 0 <= k < |frames|
    ensures TopField(k, topFieldFirst) < |FieldsOf(frames, h, topFieldFirst)|
    ensures BottomField(k, topFieldFirst) < |FieldsOf(frames, h, topFieldFirst)|
    ensures |FieldsOf(frames, h, topFieldFirst)[TopField(k, topFieldFirst)]| ==
            |FieldsOf(frames, h, topFieldFirst)[BottomField(k, topFieldFirst)]|
    ensures h % 2 == 0 ==>
      Weave(FieldsOf(frames, h, topFieldFirst)[TopField(k, topFieldFirst)],
            FieldsOf(frames, h, topFieldFirst)[BottomField(k, topFieldFirst)]) == frames[k]
    ensures h % 2 == 1 ==>
      Weave(FieldsOf(frames, h, topFieldFirst)[TopField(k, topFieldFirst)],
            FieldsOf(frames, h, topFieldFirst)[BottomField(k, topFieldFirst)]) == frames[k][..h - 1]
  {
    var fs := FieldsOf(frames, h, topFieldFirst);
    var t, b := TopField(k, topFieldFirst), BottomField(k, topFieldFirst);
    var woven := Weave(fs[t], fs[b]);
    forall i | 0 <= i < 2 * (h / 2)
      ensures woven[i] == frames[k][i]
    {
      WovenRow(frames, h, topFieldFirst, k, i);
    }
    assert woven == frames[k][..2 * (h / 2)];
    if h % 2 == 0 {
      assert frames[k][..h] == frames[k];
    }
  }
}
