module SubnetLayout {

  // DiakopticsSolver: the rows of the matrices that belong to nodes and to subnets.

  /** The first row of item k, where item i takes width[i] rows. */
  function Start(width: seq<nat>, k: nat): nat
    requires k <= |width|
  {
    if k == 0 then 0 else Start(width, k - 1) + width[k - 1]
  }

  lemma {:induction false} StartsGrow(width: seq<nat>, i: nat, j: nat)
    requires i < j <= |width|
    ensures Start(width, i) + width[i] <= Start(width, j)
  {
    if i < j - 1 { StartsGrow(width, i, j - 1); }
  }

  /** Every row belongs to exactly one item. */
  lemma {:induction false} RowsPartition(width: seq<nat>, row: nat) returns (k: nat)
    requires row < Start(width, |width|)
    ensures k < |width| && Start(width, k) <= row < Start(width, k) + width[k]
    ensures forall i :: 0 <= i < |width| && Start(width, i) <= row < Start(width, i) + width[i] ==> i == k
  {
    k := OwnerBelow(width, row, |width|);
    forall i | 0 <= i < |width| && Start(width, i) <= row < Start(width, i) + width[i] ensures i == k {
      if i < k { StartsGrow(width, i, k); } else if k < i { StartsGrow(width, k, i); }
    }
  }

  lemma {:induction false} OwnerBelow(width: seq<nat>, row: nat, n: nat) returns (k: nat)
    requires n <= |width| && row < Start(width, n)
    ensures k < n && Start(width, k) <= row < Start(width, k) + width[k]
  {
    k := n - 1;
    if row < Start(width, n - 1) { k := OwnerBelow(width, row, n - 1); }
  }

  function Widths(abc: seq<bool>): (w: seq<nat>)
    ensures |w| == |abc|
  {
    seq(|abc|, k requires 0 <= k < |abc| => if abc[k] then 3 else 1)
  }

  /** assignMatrixNodeIndices: one index for a node, three for a three-phase node; with the partition
      of the rows, no two nodes or phases share an index and none is left over. */
  method AssignNodeIndices(abc: seq<bool>) returns (index: seq<seq<nat>>, size: nat)
    ensures |index| == |abc| && size == Start(Widths(abc), |abc|)
    ensures forall k :: 0 <= k < |abc| ==> |index[k]| == Widths(abc)[k] && forall p :: 0 <= p < |index[k]| ==>
              index[k][p] == Start(Widths(abc), k) + p
  {
    index, size := [], 0;
    for k := 0 to |abc|
      invariant |index| == k && size == Start(Widths(abc), k)
      invariant forall i :: 0 <= i < k ==> |index[i]| == Widths(abc)[i] && forall p :: 0 <= p < |index[i]| ==>
                  index[i][p] == Start(Widths(abc), i) + p
    {
      var own := [size];
      size := size + 1;
      if abc[k] {
        own := own + [size];
        size := size + 1;
        own := own + [size];
        size := size + 1;
      }
      index := index + [own];
    }
  }

  /** setSubnetSize and sysOff: the subnets' blocks follow each other; a complex subnet takes the rows
      of its nodes twice, for the real and the imaginary parts. */
  method AssignOffsets(sizes: seq<nat>, complexValues: bool) returns (width: seq<nat>, offset: seq<nat>)
    ensures |width| == |offset| == |sizes|
    ensures forall net :: 0 <= net < |sizes| ==>
              width[net] == (if complexValues then 2 * sizes[net] else sizes[net]) && offset[net] == Start(width, net)
  {
    hide Start;
    width, offset := [], [];
    for net := 0 to |sizes|
      invariant |width| == |offset| == net
      invariant forall i :: 0 <= i < net ==> width[i] == WidthOf(sizes[i], complexValues)
      invariant forall i :: 0 <= i < net ==> offset[i] == Start(width, i)
    {
      var off := if net == 0 then 0 else offset[net - 1] + width[net - 1];
      SameStarts(width, WidthOf(sizes[net], complexValues));
      StartNext(width, net);
      width := width + [WidthOf(sizes[net], complexValues)];
      offset := offset + [off];
    }
  }

  function WidthOf(size: nat, complexValues: bool): nat { if complexValues then 2 * size else size }

  lemma StartNext(width: seq<nat>, k: nat)
    requires k <= |width|
    ensures Start(width, k) == if k == 0 then 0 else Start(width, k - 1) + width[k - 1]
  {
  }

  lemma {:induction false} SameStarts(width: seq<nat>, w: nat)
    ensures forall i :: 0 <= i <= |width| ==> Start(width + [w], i) == Start(width, i)
  {
    forall i | 0 <= i <= |width| ensures Start(width + [w], i) == Start(width, i) {
      SameStart(width, width + [w], i);
    }
  }

  lemma {:induction false} SameStart(a: seq<nat>, b: seq<nat>, k: nat)
    requires k <= |a| <= |b| && a == b[..|a|]
    ensures Start(a, k) == Start(b, k)
  {
    if k > 0 { SameStart(a, b, k - 1); }
  }

  /** Spelled out: the nodes follow one another from row 0, with three rows for a node with three
      phases and one for any other. */
  lemma IndicesFollow(abc: seq<bool>, k: nat)
    requires k < |abc|
    ensures Start(Widths(abc), 0) == 0
    ensures Start(Widths(abc), k + 1) == Start(Widths(abc), k) + Widths(abc)[k] && Widths(abc)[k] ==
              if abc[k] then 3 else 1
  {
  }

  /** Each width moves every later start by its own amount. */
  lemma {:induction false} WidthCountsEach(width: seq<nat>, k: nat, i: nat, d: nat)
    requires i < k <= |width|
    ensures Start(width[i := width[i] + d], k) == Start(width, k) + d
  {
    if i < k - 1 { WidthCountsEach(width, k - 1, i, d); } else { WidthBefore(width, i, i, width[i] + d); }
  }

  lemma {:induction false} WidthBefore(width: seq<nat>, k: nat, i: nat, w: nat)
    requires k <= i < |width|
    ensures Start(width[i := w], k) == Start(width, k)
  {
    if k > 0 { WidthBefore(width, k - 1, i, w); }
  }
}
