/** createRangeFromHighlight's walk over the page's text nodes: the stored character offsets
    are located by summing node lengths in document order. The document is given as the
    list of its text-node lengths; a located boundary is a node index and an offset into
    that node. */
module HighlightRange {
  import opened Wrappers

  /** The characters before node i. */
  function Before(lens: seq<nat>, i: nat): nat
    requires i <= |lens|
  {
    if i == 0 then 0 else Before(lens, i - 1) + lens[i - 1]
  }

  /** Node i is the first node whose end lies past the target (strict) or at or past it. */
  predicate Reaches(lens: seq<nat>, i: nat, target: int, strict: bool)
    requires i < |lens|
  {
    var e := Before(lens, i) + lens[i];
    if strict then e > target else e >= target
  }

  /** The first node, from index `from` on, that reaches the target. */
  function FirstReaching(lens: seq<nat>, target: int, strict: bool, from: nat): (r: Option<nat>)
    requires from <= |lens|
    ensures r.Some? ==> from <= r.value < |lens| && Reaches(lens, r.value, target, strict)
    ensures r.Some? ==> forall j :: from <= j < r.value ==> !Reaches(lens, j, target, strict)
    ensures r.None? ==> forall j :: from <= j < |lens| ==> !Reaches(lens, j, target, strict)
    decreases |lens| - from
  {
    if from == |lens| then None
    else if Reaches(lens, from, target, strict) then Some(from)
    else FirstReaching(lens, target, strict, from + 1)
  }

  /** A located range: start node and offset, end node and offset. */
  datatype Located = Located(startNode: nat, startOffset: int, endNode: nat, endOffset: int)

  /** What the walk finds: the end is the first node reaching endOffset; the start is the
      first node passing startOffset, and it only counts when it is not after the end node,
      since the walk stops at the end node. */
  function Locate(lens: seq<nat>, r: (int, int)): Option<Located> {
    match FirstReaching(lens, r.1, false, 0)
    case None => None
    case Some(e) =>
      match FirstReaching(lens, r.0, true, 0)
      case None => None
      case Some(s) =>
        if s <= e then Some(Located(s, r.0 - Before(lens, s), e, r.1 - Before(lens, e)))
        else None
  }

  lemma {:induction false} BeforeMonotone(lens: seq<nat>, i: nat, j: nat)
    requires i <= j <= |lens|
    ensures Before(lens, i) <= Before(lens, j)
    decreases j
  {
    if i < j {
      BeforeMonotone(lens, i, j - 1);
    }
  }

  /** With non-negative stored offsets, a located start lies inside its node
      (0 <= offset < length) and a located end inside or at the end of its node
      (0 <= offset <= length), with the start node not after the end node. */
  lemma LocatedOffsetsInNodes(lens: seq<nat>, startOffset: int, endOffset: int)
    requires 0 <= startOffset && 0 <= endOffset
    ensures var l := Locate(lens, (startOffset, endOffset));
      l.Some? ==>
        && l.value.startNode <= l.value.endNode < |lens|
        && 0 <= l.value.startOffset < lens[l.value.startNode]
        && 0 <= l.value.endOffset <= lens[l.value.endNode]
  {
    var l := Locate(lens, (startOffset, endOffset));
    if l.Some? {
      var s, e := l.value.startNode, l.value.endNode;
      if s > 0 {
        assert !Reaches(lens, s - 1, startOffset, true);
      }
      if e > 0 {
        assert !Reaches(lens, e - 1, endOffset, false);
      }
    }
  }

  /** No range is found when the end offset lies past all the text. */
  lemma LocateFailsPastEnd(lens: seq<nat>, startOffset: int, endOffset: int)
    requires endOffset > Before(lens, |lens|)
    ensures Locate(lens, (startOffset, endOffset)).None?
  {
    forall j | 0 <= j < |lens|
      ensures !Reaches(lens, j, endOffset, false)
    {
      BeforeMonotone(lens, j + 1, |lens|);
    }
  }

  /** The walk itself: one pass over the nodes with a running offset, recording the start
      when first passed and stopping at the end. */
  method CreateRangeFromHighlight(lens: seq<nat>, startOffset: int, endOffset: int)
    returns (r: Option<Located>)
    ensures r == Locate(lens, (startOffset, endOffset))
  {
    var currentOffset := 0;
    var startNode: Option<nat> := None;
    var endNode: Option<nat> := None;
    var startLocal := 0;
    var endLocal := 0;
    var i := 0;
    while i < |lens|
      invariant 0 <= i <= |lens|
      invariant currentOffset == Before(lens, i)
      invariant endNode.None?
      invariant startNode.None? ==> forall j :: 0 <= j < i ==> !Reaches(lens, j, startOffset, true)
      invariant startNode.Some? ==>
        startNode.value < i && FirstReaching(lens, startOffset, true, 0) == startNode
        && startLocal == startOffset - Before(lens, startNode.value)
      invariant forall j :: 0 <= j < i ==> !Reaches(lens, j, endOffset, false)
    {
      var nodeLength := lens[i];
      if startNode.None? && currentOffset + nodeLength > startOffset {
        startNode := Some(i);
        startLocal := startOffset - currentOffset;
        StartFound(lens, startOffset, i);
      }
      if currentOffset + nodeLength >= endOffset {
        endNode := Some(i);
        endLocal := endOffset - currentOffset;
        EndFound(lens, endOffset, i);
        break;
      }
      currentOffset := currentOffset + nodeLength;
      i := i + 1;
    }
    if startNode.Some? && endNode.Some? {
      r := Some(Located(startNode.value, startLocal, endNode.value, endLocal));
    } else {
      r := None;
    }
  }

  lemma StartFound(lens: seq<nat>, target: int, i: nat)
    requires i < |lens| && Reaches(lens, i, target, true)
    requires forall j :: 0 <= j < i ==> !Reaches(lens, j, target, true)
    ensures FirstReaching(lens, target, true, 0) == Some(i)
  {
    NoEarlier(lens, target, true, i, 0);
  }

  lemma EndFound(lens: seq<nat>, target: int, i: nat)
    requires i < |lens| && Reaches(lens, i, target, false)
    requires forall j :: 0 <= j < i ==> !Reaches(lens, j, target, false)
    ensures FirstReaching(lens, target, false, 0) == Some(i)
  {
    NoEarlier(lens, target, false, i, 0);
  }

  lemma {:induction false} NoEarlier(lens: seq<nat>, target: int, strict: bool, i: nat, from: nat)
    requires from <= i < |lens| && Reaches(lens, i, target, strict)
    requires forall j :: from <= j < i ==> !Reaches(lens, j, target, strict)
    ensures FirstReaching(lens, target, strict, from) == Some(i)
    decreases i - from
  {
    if from < i {
      NoEarlier(lens, target, strict, i, from + 1);
    }
  }
}
