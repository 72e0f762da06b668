/**
 * Region enumeration: the regions of interest one batch extracts features
 * for, from a label map (one region per distinct non-zero voxel value) and
 * from a segmentation (one region per segment that converts to a binary
 * label map), label map first.
 */
module Regions {
  import opened Options
  import Text

  /** An MRML node: its scene ID and its display name. */
  datatype Node = Node(id: string, name: string)

  /** One region: its identifier, the mask node, the label value inside the mask and the image. */
  datatype Region = Region(name: string, mask: Node, labelValue: int, image: Node)

  /**
   * A segment of a segmentation node; `converts` is whether the
   * segmentation logic manages to write it into the scratch label map.
   */
  datatype Segment = Segment(name: string, converts: bool)

  /** A label-map node with the voxel values of its image, in any order. */
  datatype LabelMapInput = LabelMapInput(node: Node, voxels: seq<int>)

  /** A segmentation node with its segments in index order. */
  datatype SegmentationInput = SegmentationInput(node: Node, segments: seq<Segment>)

  predicate StrictlyIncreasing(s: seq<int>)
  {
    forall i, j :: 0 <= i < j < |s| ==> s[i] < s[j]
  }

  function Insert(x: int, s: seq<int>): (r: seq<int>)
    requires StrictlyIncreasing(s)
    ensures StrictlyIncreasing(r)
    ensures forall v :: v in r <==> v == x || v in s
  {
    if s == [] then [x]
    else if x < s[0] then [x] + s
    else if x == s[0] then s
    else
      var rest := Insert(x, s[1..]);
      forall v | v in rest ensures s[0] < v {
        if v != x {
          var k :| 0 <= k < |s[1..]| && s[1..][k] == v;
          assert s[k + 1] == v;
        }
      }
      IncreasingCons(s[0], rest);
      [s[0]] + rest
  }

  /** `numpy.unique`: the distinct values of `xs`, in ascending order. */
  function Unique(xs: seq<int>): (r: seq<int>)
    ensures StrictlyIncreasing(r)
    ensures forall v :: v in r <==> v in xs
  {
    if xs == [] then [] else Insert(xs[|xs| - 1], Unique(xs[..|xs| - 1]))
  }

  /** The identifier of the region for value `v` of a label map called `mapName`. */
  function LabelRegionName(mapName: string, v: int): string
  {
    mapName + "_label_" + Text.Decimal(v)
  }

  /** The identifier of the region for a segment called `segmentName`. */
  function SegmentRegionName(segmentationName: string, segmentName: string): string
  {
    segmentationName + "_segment_" + segmentName
  }

  function LabelValues(rs: seq<Region>): (vs: seq<int>)
    ensures |vs| == |rs|
    ensures forall i :: 0 <= i < |rs| ==> vs[i] == rs[i].labelValue
  {
    if rs == [] then [] else [rs[0].labelValue] + LabelValues(rs[1..])
  }

  /** The non-zero values of `labels`, in their order. */
  function NonZero(labels: seq<int>): (r: seq<int>)
    ensures forall v :: v in r <==> v in labels && v != 0
  {
    if labels == [] then []
    else (if labels[0] == 0 then [] else [labels[0]]) + NonZero(labels[1..])
  }

  lemma IncreasingCons(x: int, s: seq<int>)
    requires StrictlyIncreasing(s)
    requires forall v :: v in s ==> x < v
    ensures StrictlyIncreasing([x] + s)
  {
    var r := [x] + s;
    forall i, j | 0 <= i < j < |r| ensures r[i] < r[j] {
      assert r[j] == s[j - 1];
      if i > 0 {
        assert r[i] == s[i - 1];
      } else {
        assert s[j - 1] in s;
      }
    }
  }

  lemma {:induction false} NonZeroIncreasing(labels: seq<int>)
    requires StrictlyIncreasing(labels)
    ensures StrictlyIncreasing(NonZero(labels))
  {
    if labels != [] {
      var tail := labels[1..];
      NonZeroIncreasing(tail);
      if labels[0] != 0 {
        forall v | v in NonZero(tail) ensures labels[0] < v {
          var k :| 0 <= k < |tail| && tail[k] == v;
          assert labels[k + 1] == v;
        }
        IncreasingCons(labels[0], NonZero(tail));
      } else {
        assert NonZero(labels) == NonZero(tail);
      }
    }
  }

  /**
   * The loop over the unique values: value 0 is the background and is
   * skipped, every other value becomes a region of the label map itself.
   */
  function LabelRegions(labelNode: Node, labels: seq<int>, imageNode: Node): (r: seq<Region>)
    ensures forall i :: 0 <= i < |r| ==>
      r[i] == Region(LabelRegionName(labelNode.name, r[i].labelValue), labelNode, r[i].labelValue, imageNode)
  {
    if labels == [] then []
    else if labels[0] == 0 then LabelRegions(labelNode, labels[1..], imageNode)
    else [Region(LabelRegionName(labelNode.name, labels[0]), labelNode, labels[0], imageNode)]
         + LabelRegions(labelNode, labels[1..], imageNode)
  }

  lemma {:induction false} LabelRegionValues(labelNode: Node, labels: seq<int>, imageNode: Node)
    ensures LabelValues(LabelRegions(labelNode, labels, imageNode)) == NonZero(labels)
  {
    if labels != [] {
      var rest := LabelRegions(labelNode, labels[1..], imageNode);
      LabelRegionValues(labelNode, labels[1..], imageNode);
      if labels[0] != 0 {
        var r := LabelRegions(labelNode, labels, imageNode);
        assert r[1..] == rest;
      }
    }
  }

  /** The label-map generator: what `_getLabelGeneratorFromLabelMap` yields. */
  function LabelMapRegions(input: LabelMapInput, imageNode: Node): seq<Region>
  {
    LabelRegions(input.node, Unique(input.voxels), imageNode)
  }

  /**
   * The label map yields one region per distinct non-zero voxel value, in
   * ascending order of value, named `<map>_label_<value>`, over the label
   * map itself; value 0 is never yielded.
   */
  lemma LabelMapRegionsSpec(input: LabelMapInput, imageNode: Node)
    ensures var r := LabelMapRegions(input, imageNode);
      && StrictlyIncreasing(LabelValues(r))
      && (forall v :: v in LabelValues(r) <==> v in input.voxels && v != 0)
      && (forall i :: 0 <= i < |r| ==>
            r[i] == Region(LabelRegionName(input.node.name, r[i].labelValue), input.node, r[i].labelValue, imageNode))
  {
    LabelRegionValues(input.node, Unique(input.voxels), imageNode);
    NonZeroIncreasing(Unique(input.voxels));
  }

  /** The segments whose conversion succeeds, in their original order. */
  function Converted(segments: seq<Segment>): (r: seq<Segment>)
    ensures forall s :: s in r <==> s in segments && s.converts
    ensures |r| <= |segments|
  {
    if segments == [] then []
    else (if segments[0].converts then [segments[0]] else []) + Converted(segments[1..])
  }

  /** Filtering distributes over concatenation, so the kept segments keep their order. */
  lemma {:induction false} ConvertedAppend(a: seq<Segment>, b: seq<Segment>)
    ensures Converted(a + b) == Converted(a) + Converted(b)
  {
    if a == [] {
      assert a + b == b;
    } else {
      assert (a + b)[0] == a[0];
      assert (a + b)[1..] == a[1..] + b;
      ConvertedAppend(a[1..], b);
    }
  }

  /**
   * The segmentation generator: for each segment in index order, a region
   * over the one scratch label-map node with label value 1, skipping every
   * segment whose conversion fails.
   */
  function SegmentationRegions(input: SegmentationInput, scratch: Node, imageNode: Node): (r: seq<Region>)
    ensures |r| == |Converted(input.segments)|
    ensures forall i :: 0 <= i < |r| ==>
      r[i] == Region(SegmentRegionName(input.node.name, Converted(input.segments)[i].name), scratch, 1, imageNode)
    decreases |input.segments|
  {
    var segs := input.segments;
    if segs == [] then []
    else
      var rest := SegmentationRegions(SegmentationInput(input.node, segs[1..]), scratch, imageNode);
      if segs[0].converts then
        [Region(SegmentRegionName(input.node.name, segs[0].name), scratch, 1, imageNode)] + rest
      else rest
  }

  /**
   * The chained generator: label-map regions first, then segmentation
   * regions; a source that is absent contributes nothing.
   */
  function Enumerate(labelMap: Option<LabelMapInput>, segmentation: Option<SegmentationInput>,
                     imageNode: Node, scratch: Node): seq<Region>
  {
    (if labelMap.Some? then LabelMapRegions(labelMap.value, imageNode) else [])
    + (if segmentation.Some? then SegmentationRegions(segmentation.value, scratch, imageNode) else [])
  }

  /** Every label-map region is over the label map itself and has a non-zero label value. */
  lemma LabelMapRegionsShape(input: LabelMapInput, imageNode: Node)
    ensures var r := LabelMapRegions(input, imageNode);
      forall i :: 0 <= i < |r| ==> r[i].mask == input.node && r[i].labelValue != 0
  {
    var r := LabelMapRegions(input, imageNode);
    LabelMapRegionsSpec(input, imageNode);
    forall i | 0 <= i < |r| ensures r[i].mask == input.node && r[i].labelValue != 0 {
      assert LabelValues(r)[i] == r[i].labelValue;
      assert r[i].labelValue in LabelValues(r);
    }
  }

  /** The number of regions is the distinct non-zero values plus the converted segments. */
  lemma EnumerateCount(labelMap: Option<LabelMapInput>, segmentation: Option<SegmentationInput>,
                       imageNode: Node, scratch: Node)
    ensures |Enumerate(labelMap, segmentation, imageNode, scratch)|
      == (if labelMap.Some? then |DistinctLabels(labelMap.value.voxels)| else 0)
       + (if segmentation.Some? then |Converted(segmentation.value.segments)| else 0)
  {
    if labelMap.Some? {
      var input := labelMap.value;
      var values := NonZero(Unique(input.voxels));
      LabelRegionValues(input.node, Unique(input.voxels), imageNode);
      NonZeroIncreasing(Unique(input.voxels));
      IncreasingCard(values);
      assert (set v | v in values) == DistinctLabels(input.voxels);
    }
  }

  /** The distinct non-zero values among the voxels. */
  ghost function DistinctLabels(voxels: seq<int>): set<int>
  {
    set v | v in voxels && v != 0
  }

  /** A strictly increasing sequence has as many elements as distinct values. */
  lemma {:induction false} IncreasingCard(s: seq<int>)
    requires StrictlyIncreasing(s)
    ensures |s| == |(set v | v in s)|
  {
    if s != [] {
      var tail := s[1..];
      IncreasingCard(tail);
      assert (set v | v in s) == {s[0]} + (set v | v in tail);
      assert s[0] !in tail;
    }
  }

  /**
   * Every label-map region comes before every segmentation region (the
   * scratch node is created fresh, so it is not the label map); without a
   * label map every region is a segment over the scratch node with label
   * value 1, and without a segmentation every region is a non-zero value
   * of the label map.
   */
  lemma EnumerateOrder(labelMap: Option<LabelMapInput>, segmentation: Option<SegmentationInput>,
                       imageNode: Node, scratch: Node)
    requires labelMap.Some? ==> labelMap.value.node != scratch
    ensures var r := Enumerate(labelMap, segmentation, imageNode, scratch);
      && (forall i, j :: 0 <= i < j < |r| && r[i].mask == scratch ==> r[j].mask == scratch)
      && (labelMap.None? ==> forall i :: 0 <= i < |r| ==> r[i].mask == scratch && r[i].labelValue == 1)
      && (segmentation.None? ==> forall i :: 0 <= i < |r| ==> r[i].mask != scratch && r[i].labelValue != 0)
  {
    var fromLabels := if labelMap.Some? then LabelMapRegions(labelMap.value, imageNode) else [];
    var fromSegments := if segmentation.Some? then SegmentationRegions(segmentation.value, scratch, imageNode) else [];
    var r := fromLabels + fromSegments;
    assert forall i :: 0 <= i < |fromSegments| ==> fromSegments[i].mask == scratch && fromSegments[i].labelValue == 1;
    if labelMap.Some? {
      LabelMapRegionsShape(labelMap.value, imageNode);
    }
  }

  /** Two regions of one label map have different identifiers. */
  lemma LabelRegionNamesDistinct(mapName: string, v: int, w: int)
    requires v != w
    ensures LabelRegionName(mapName, v) != LabelRegionName(mapName, w)
  {
    var p := mapName + "_label_";
    if LabelRegionName(mapName, v) == LabelRegionName(mapName, w) {
      assert Text.Decimal(v) == LabelRegionName(mapName, v)[|p|..];
      assert Text.Decimal(w) == LabelRegionName(mapName, w)[|p|..];
      Text.DecimalInjective(v, w);
    }
  }
}
