/** `RawImageLoader.get_image_rotate_from_tags`: from the values of the
    Exif Orientation tag (0x0112, section 4.6.4 A of Exif 2.3) to the PIL
    transpose the thumbnailer applies. The mapping is the program's own and
    departs from the Exif table: it only ever rotates or flips top to bottom. */
module Orientation {
  import opened Wrappers

  /** The members of PIL's `Image.Transpose` this resolver can produce. */
  datatype Transpose = FlipTopBottom | Rotate90 | Rotate180 | Rotate270

  /** The key exifread gives the Orientation tag. */
  const OrientationKey: string := "Image Orientation"

  /** exifread's `IfdTag`; only its `values` list matters here, and the
      resolver extends that list in place. */
  class IfdTag {
    var values: seq<int>

    constructor (values: seq<int>)
      ensures this.values == values
    {
      this.values := values;
    }
  }

  /** The value list after the three in-place expansions: 2 implies 4 and 3,
      5 implies 4 and 6, 7 implies 4 and 8, checked in that order. */
  function Expand(values: seq<int>): (r: seq<int>)
    ensures |values| <= |r| && r[..|values|] == values
    ensures forall x :: x in r <==>
      || x in values
      || (2 in values && (x == 4 || x == 3))
      || (5 in values && (x == 4 || x == 6))
      || (7 in values && (x == 4 || x == 8))
  {
    var afterTwo := if 2 in values then values + [4, 3] else values;
    var afterFive := if 5 in afterTwo then afterTwo + [4, 6] else afterTwo;
    if 7 in afterFive then afterFive + [4, 8] else afterFive
  }

  /** The transpose chosen for an (expanded) value list, read as a priority
      order: the source tests 3, 4, 6, 8 in turn and each match overwrites
      the previous one, so the last code present wins. */
  function Resolve(values: seq<int>): (r: Option<Transpose>)
    ensures r == None <==> forall c :: c in values ==> c != 3 && c != 4 && c != 6 && c != 8
    ensures r == Some(Rotate180) ==> 3 in values
  {
    if 8 in values then Some(Rotate90)
    else if 6 in values then Some(Rotate270)
    else if 4 in values then Some(FlipTopBottom)
    else if 3 in values then Some(Rotate180)
    else None
  }

  /** The resolver, as the source runs it: expand the tag's list in place,
      then overwrite `trans` through four ordered tests. */
  method GetImageRotateFromTags(tags: map<string, IfdTag>) returns (trans: Option<Transpose>)
    modifies if OrientationKey in tags then {tags[OrientationKey]} else {}
    ensures OrientationKey !in tags ==> trans == None
    ensures OrientationKey in tags ==>
      && tags[OrientationKey].values == Expand(old(tags[OrientationKey].values))
      && trans == Resolve(tags[OrientationKey].values)
  {
    trans := None;
    if OrientationKey in tags {
      var orientation := tags[OrientationKey];
      if 2 in orientation.values {
        orientation.values := orientation.values + [4, 3];
      }
      if 5 in orientation.values {
        orientation.values := orientation.values + [4, 6];
      }
      if 7 in orientation.values {
        orientation.values := orientation.values + [4, 8];
      }
      if 3 in orientation.values {
        trans := Some(Rotate180);
      }
      if 4 in orientation.values {
        trans := Some(FlipTopBottom);
      }
      if 6 in orientation.values {
        trans := Some(Rotate270);
      }
      if 8 in orientation.values {
        trans := Some(Rotate90);
      }
    }
  }

  /** The transform in terms of the codes the tag actually reported:
      7 behaves like 8, 5 like 6 and 2 like 4, each pair in priority order. */
  lemma OrientationFromReportedCodes(values: seq<int>)
    ensures Resolve(Expand(values)) == Some(Rotate90) <==> (8 in values || 7 in values)
    ensures Resolve(Expand(values)) == Some(Rotate270) <==>
      !(8 in values || 7 in values) && (6 in values || 5 in values)
    ensures Resolve(Expand(values)) == Some(FlipTopBottom) <==>
      !(8 in values || 7 in values || 6 in values || 5 in values) && (4 in values || 2 in values)
    ensures Resolve(Expand(values)) == Some(Rotate180) <==>
      !(8 in values || 7 in values || 6 in values || 5 in values || 4 in values || 2 in values)
      && 3 in values
    ensures Resolve(Expand(values)) == None <==>
      forall c :: c in values ==> c !in {2, 3, 4, 5, 6, 7, 8}
  {
  }

  /** Only which codes are present matters, not their order or how often
      they repeat. */
  lemma OrientationIgnoresOrderAndRepeats(values: seq<int>, others: seq<int>)
    requires forall c :: c in values <==> c in others
    ensures Resolve(Expand(values)) == Resolve(Expand(others))
  {
    OrientationFromReportedCodes(values);
    OrientationFromReportedCodes(others);
  }

  /** The single-code cases, as the code resolves them (not as the Exif
      table reads: 2, 5 and 7 are mirrored images there). */
  lemma SingleCodeOutcomes()
    ensures Resolve(Expand([1])) == None
    ensures Resolve(Expand([2])) == Some(FlipTopBottom)
    ensures Resolve(Expand([3])) == Some(Rotate180)
    ensures Resolve(Expand([4])) == Some(FlipTopBottom)
    ensures Resolve(Expand([5])) == Some(Rotate270)
    ensures Resolve(Expand([6])) == Some(Rotate270)
    ensures Resolve(Expand([7])) == Some(Rotate90)
    ensures Resolve(Expand([8])) == Some(Rotate90)
  {
  }

  /** Code 2 appends [4, 3], yet 3's rotation is overwritten by 4's flip:
      expansion of [2] is exactly [2, 4, 3] and resolves to the flip. */
  lemma {:induction false} TwoResolvesToFlipNotRotation()
    ensures Expand([2]) == [2, 4, 3]
    ensures 3 in Expand([2]) && Resolve(Expand([2])) != Some(Rotate180)
  {
    assert 5 !in [2, 4, 3] && 7 !in [2, 4, 3];
  }
}
