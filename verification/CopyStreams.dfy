/** The staged block transfer: a block map and block ids are staged, then each layer is copied at most once. */
module CopyStreams {

  import opened Bytes
  import B = BlockCopy
  import S = Scatter
  import L = ScatterLoops
  import M = MixedRadix
  import opened Options

  datatype Status = Completed | InvalidArgument | LogicError | OutOfRange | RuntimeError

  datatype BlockMap = BlockMap(src: seq<array<byte>>, dst: seq<array<byte>>, prefixes: nat, suffix: nat, elem: nat, from: nat, to: nat)

  function GeometryOf(m: BlockMap): B.Geometry { B.Geometry(m.prefixes, m.suffix * m.elem, m.from, m.to) }

  /** What one layer's copy makes of its target. */
  function Copied(m: BlockMap, srcIds: seq<nat>, dstIds: seq<nat>, s: seq<byte>, t: seq<byte>): seq<byte>
    requires B.Ready(GeometryOf(m), |s|, |t|, srcIds, dstIds)
  {
    B.CopyWritesFit(GeometryOf(m), s, |t|, srcIds, dstIds);
    BlitAll(t, B.CopyWrites(GeometryOf(m), s, srcIds, dstIds))
  }

  function Narrow(n: nat): nat { n % 0x1_0000_0000 }

  predicate PowerOfTwo(v: nat) { v == 1 || (v > 0 && v % 2 == 0 && PowerOfTwo(v / 2)) }

  predicate ScatterArgs(elem: nat, blockDim: nat, srcTp: nat, dstTp: nat) {
    blockDim <= 1 && 0 < elem <= 8 && srcTp < dstTp && PowerOfTwo(srcTp) && PowerOfTwo(dstTp)
  }

  /** How many target ranks share one source rank's heads. */
  function Factor(srcTp: nat, dstTp: nat): (r: nat)
    requires 0 < srcTp < dstTp
    ensures 0 < r <= dstTp
  {
    QuotientBound(dstTp, srcTp);
    M.Quotient(dstTp, srcTp)
  }

  /** The layer's heads split into the target ranks that share them. */
  function SixDims(dims: seq<nat>, srcTp: nat, dstTp: nat): seq<nat>
    requires |dims| == 5 && 0 < srcTp < dstTp
  {
    var factor := Factor(srcTp, dstTp);
    [Narrow(dims[0]), Narrow(dims[1]), Narrow(dims[2]), Narrow(factor), Narrow(M.Quotient(dims[3], factor)), Narrow(dims[4])]
  }

  lemma QuotientBound(a: nat, b: nat)
    requires b > 0
    ensures M.Quotient(a, b) <= a && (b <= a ==> M.Quotient(a, b) > 0)
  {
    hide M.Quotient, M.Remainder;
    M.DivMod(a, b);
    M.MulMono(b, M.Quotient(a, b));
  }

  /** The targets are different slabs, and none of them is a source. */
  predicate Separate(m: BlockMap) {
    && (forall i, j :: 0 <= i < j < |m.dst| ==> m.dst[i] != m.dst[j])
    && (forall i, j :: 0 <= i < |m.dst| && 0 <= j < |m.src| ==> m.dst[i] != m.src[j])
  }

  /** Layer `i` may be copied: both slabs hold their blocks and the listed ids exist. */
  predicate LayerReady(m: BlockMap, srcIds: seq<nat>, dstIds: seq<nat>, i: nat) {
    && i < |m.src| == |m.dst| && m.src[i] != m.dst[i]
    && B.Ready(GeometryOf(m), m.src[i].Length, m.dst[i].Length, srcIds, dstIds)
  }

  /** What layer `i`'s target holds after a trigger, given what it held and whether its doorbell had rung. */
  function Expected(m: BlockMap, srcIds: seq<nat>, dstIds: seq<nat>, i: nat, rung: bool, s: seq<byte>, t: seq<byte>): seq<byte>
    requires LayerReady(m, srcIds, dstIds, i) && |s| == m.src[i].Length && |t| == m.dst[i].Length
  {
    if rung || Empty(m, srcIds) then t else Copied(m, srcIds, dstIds, s, t)
  }

  lemma ExpectedEmpty(m: BlockMap, srcIds: seq<nat>, dstIds: seq<nat>, i: nat, rung: bool, s: seq<byte>, t: seq<byte>)
    requires LayerReady(m, srcIds, dstIds, i) && |s| == m.src[i].Length && |t| == m.dst[i].Length && Empty(m, srcIds)
    ensures Expected(m, srcIds, dstIds, i, rung, s, t) == t
  {
  }

  /** The copy has nothing to do, which the backend reports as a failure. */
  predicate Empty(m: BlockMap, srcIds: seq<nat>) { |srcIds| == 0 || m.prefixes == 0 || m.suffix == 0 || m.elem == 0 }

  class CopyStream {
    const maxLayers: nat
    const maxBlocks: nat
    var stagedLayers: bool
    var stagedIds: bool
    var doorbells: seq<bool>
    var srcIds: seq<nat>
    var dstIds: seq<nat>
    var blockMap: Option<BlockMap>

    ghost predicate Valid()
      reads this
    {
      && |doorbells| == maxLayers
      && (stagedLayers ==> blockMap.Some?)
      && (blockMap.Some? ==> 0 < |blockMap.value.src| == |blockMap.value.dst| <= maxLayers)
      && |srcIds| == |dstIds| <= maxBlocks && B.Distinct(srcIds) && B.Distinct(dstIds)
    }

    constructor (maxLayers: nat, maxBlocks: nat)
      ensures Valid() && !stagedLayers && !stagedIds && blockMap.None?
      ensures this.maxLayers == maxLayers && this.maxBlocks == maxBlocks
    {
      this.maxLayers, this.maxBlocks := maxLayers, maxBlocks;
      stagedLayers, stagedIds := false, false;
      doorbells := seq(maxLayers, i => false);
      srcIds, dstIds, blockMap := [], [], None;
    }

    /** Stages the layers and arms every doorbell; refused while layers are staged. */
    method PrepareBlockMap(m: BlockMap) returns (st: Status)
      requires Valid()
      modifies this`stagedLayers, this`blockMap, this`doorbells
      ensures Valid()
      ensures st == if |m.src| == 0 || |m.src| != |m.dst| || |m.src| > maxLayers then InvalidArgument
                    else if old(stagedLayers) then LogicError else Completed
      ensures st.Completed? ==> stagedLayers && blockMap == Some(m) && forall i :: 0 <= i < maxLayers ==> !doorbells[i]
      ensures !st.Completed? ==> stagedLayers == old(stagedLayers) && blockMap == old(blockMap) && doorbells == old(doorbells)
    {
      if |m.src| == 0 || |m.src| != |m.dst| || |m.src| > maxLayers {
        return InvalidArgument;
      }
      if stagedLayers {
        return LogicError;
      }
      stagedLayers, blockMap := true, Some(m);
      doorbells := seq(maxLayers, i => false);
      st := Completed;
    }

    /** Stages the block pairs once per cycle; repeated ids on either side are refused. */
    method PrepareBlockIds(src: seq<nat>, dst: seq<nat>) returns (st: Status)
      requires Valid()
      modifies this`stagedIds, this`srcIds, this`dstIds
      ensures Valid()
      ensures st == if |src| != |dst| || |src| > maxBlocks then InvalidArgument
                    else if !stagedLayers || old(stagedIds) then LogicError
                    else if B.Distinct(src) && B.Distinct(dst) then Completed else InvalidArgument
      ensures st.Completed? ==> stagedIds && srcIds == src && dstIds == dst
      ensures !st.Completed? ==> stagedIds == old(stagedIds) && srcIds == old(srcIds) && dstIds == old(dstIds)
    {
      if |src| != |dst| || |src| > maxBlocks {
        return InvalidArgument;
      }
      if !stagedLayers || stagedIds {
        return LogicError;
      }
      var uniqueSrc := AllUnique(src);
      var uniqueDst := AllUnique(dst);
      if !uniqueSrc || !uniqueDst {
        return InvalidArgument;
      }
      srcIds, dstIds, stagedIds := src, dst, true;
      st := Completed;
    }

    static method AllUnique(ids: seq<nat>) returns (unique: bool)
      ensures unique <==> B.Distinct(ids)
    {
      var seen: set<nat> := {};
      for i := 0 to |ids|
        invariant seen == set k | 0 <= k < i :: ids[k]
        invariant B.Distinct(ids[..i])
      {
        if ids[i] in seen {
          var k :| 0 <= k < i && ids[k] == ids[i];
          return false;
        }
        seen := seen + {ids[i]};
      }
      assert ids[..|ids|] == ids;
      return true;
    }

    ghost function Target(i: nat): set<object>
      reads this
    {
      if blockMap.Some? && i < |blockMap.value.dst| then {blockMap.value.dst[i]} else {}
    }

    /** Copies one layer, unless its doorbell has already rung this cycle. */
    method TriggerLayer(layer: nat) returns (st: Status)
      requires Valid()
      requires stagedLayers && stagedIds && layer < |blockMap.value.src| ==> LayerReady(blockMap.value, srcIds, dstIds, layer)
      modifies this`doorbells, Target(layer)
      ensures Valid()
      ensures st == if !stagedLayers || !stagedIds then LogicError
                    else if layer >= |blockMap.value.src| then OutOfRange
                    else if old(doorbells)[layer] then Completed
                    else if Empty(blockMap.value, srcIds) then RuntimeError else Completed
      ensures doorbells == if st.Completed? then old(doorbells)[layer := true] else old(doorbells)
      ensures stagedLayers && stagedIds && layer < |blockMap.value.src| ==>
                var m := blockMap.value;
                m.dst[layer][..] == Expected(m, srcIds, dstIds, layer, old(doorbells)[layer], m.src[layer][..], old(m.dst[layer][..]))
    {
      hide BlitAll;
      if !stagedLayers || !stagedIds {
        return LogicError;
      }
      var m := blockMap.value;
      if layer >= |m.src| {
        return OutOfRange;
      }
      if doorbells[layer] {
        return Completed;
      }
      var rc := B.CopyBlocks(m.src[layer], m.dst[layer], srcIds, dstIds, m.prefixes, m.suffix, m.elem, m.from, m.to);
      if rc != 0 {
        return RuntimeError;
      }
      doorbells := doorbells[layer := true];
      st := Completed;
    }

    /** Copies every layer that has not been copied this cycle, from its source as it is now. */
    method TriggerAllLayers() returns (st: Status)
      requires Valid()
      requires stagedLayers && stagedIds ==> Separate(blockMap.value) && forall i :: 0 <= i < |blockMap.value.src| ==> LayerReady(blockMap.value, srcIds, dstIds, i)
      modifies this`doorbells, if blockMap.Some? then set a | a in blockMap.value.dst else {}
      ensures Valid()
      ensures blockMap.None? ==> st.Completed?
      ensures blockMap.Some? && !(stagedLayers && stagedIds) ==> st.LogicError? && doorbells == old(doorbells)
      ensures stagedLayers && stagedIds ==>
                st == if Empty(blockMap.value, srcIds) && exists i :: 0 <= i < |blockMap.value.src| && !old(doorbells)[i]
                      then RuntimeError else Completed
      ensures stagedLayers && stagedIds && st.Completed? ==> forall i :: 0 <= i < |blockMap.value.src| ==> doorbells[i]
      ensures stagedLayers && stagedIds ==>
                var m := blockMap.value;
                forall i :: 0 <= i < |m.src| ==>
                  m.dst[i][..] == Expected(m, srcIds, dstIds, i, old(doorbells)[i], m.src[i][..], old(m.dst[i][..]))
    {
      hide Copied, Expected, LayerReady, Empty, Separate, B.Distinct, B.Ready;
      if blockMap.None? {
        return Completed;
      }
      if stagedLayers && stagedIds {
        st := TriggerFrom(blockMap.value);
      } else {
        st := TriggerLayer(0);
      }
    }

    /** The loop over the layers of a staged map. */
    method TriggerFrom(m: BlockMap) returns (st: Status)
      requires Valid() && stagedLayers && stagedIds && blockMap == Some(m)
      requires Separate(m) && forall i :: 0 <= i < |m.src| ==> LayerReady(m, srcIds, dstIds, i)
      modifies this`doorbells, set a | a in m.dst
      ensures Valid()
      ensures st == if Empty(m, srcIds) && exists i :: 0 <= i < |m.src| && !old(doorbells)[i] then RuntimeError else Completed
      ensures st.Completed? ==> forall i :: 0 <= i < |m.src| ==> doorbells[i]
      ensures forall i :: 0 <= i < |m.src| ==>
                m.dst[i][..] == Expected(m, srcIds, dstIds, i, old(doorbells)[i], m.src[i][..], old(m.dst[i][..]))
    {
      hide Copied, Expected, LayerReady, Empty, B.Distinct, B.Ready;
      var layer := 0;
      while layer < |m.src|
        invariant 0 <= layer <= |m.src| && Valid()
        invariant Empty(m, srcIds) ==> doorbells == old(doorbells)
        invariant forall i :: 0 <= i < layer ==> doorbells[i]
        invariant forall i :: layer <= i < |m.src| ==> doorbells[i] == old(doorbells)[i] && m.dst[i][..] == old(m.dst[i][..])
        invariant forall i :: 0 <= i < layer ==>
                    m.dst[i][..] == Expected(m, srcIds, dstIds, i, old(doorbells)[i], m.src[i][..], old(m.dst[i][..]))
      {
        st := TriggerLayer(layer);
        if !st.Completed? {
          forall i | layer <= i < |m.src| ensures Expected(m, srcIds, dstIds, i, old(doorbells)[i], m.src[i][..], old(m.dst[i][..])) == old(m.dst[i][..]) {
            ExpectedEmpty(m, srcIds, dstIds, i, old(doorbells)[i], m.src[i][..], old(m.dst[i][..]));
          }
          return;
        }
        layer := layer + 1;
      }
      st := Completed;
    }

    /** Rescatters one layer, for a copy stream with everything staged. */
    method ScatterCopyLayer(layer: nat, dims: seq<nat>, elem: nat, blockDim: nat, srcTp: nat, dstTp: nat)
      returns (st: Status)
      requires Valid() && |dims| == 5
      requires ScatterArgs(elem, blockDim, srcTp, dstTp) && stagedLayers && stagedIds && layer < |blockMap.value.src| ==>
                 var m, six := blockMap.value, SixDims(dims, srcTp, dstTp);
                 m.src[layer] != m.dst[layer] &&
                 (L.ErrorCode(six, blockDim, Narrow(m.from)) == 0 ==>
                   S.Ready(L.PlanOf(six, elem, blockDim, Narrow(m.to)), |srcIds|, m.src[layer].Length, m.dst[layer].Length))
      modifies Target(layer)
      ensures Valid()
      ensures st == if !ScatterArgs(elem, blockDim, srcTp, dstTp) then InvalidArgument
                    else if !stagedLayers || !stagedIds then LogicError
                    else if layer >= |blockMap.value.src| then OutOfRange
                    else if L.ErrorCode(SixDims(dims, srcTp, dstTp), blockDim, Narrow(blockMap.value.from)) != 0 then RuntimeError
                    else Completed
      ensures stagedLayers && layer < |blockMap.value.src| ==>
                var m := blockMap.value;
                if st.Completed? then
                  var p := L.PlanOf(SixDims(dims, srcTp, dstTp), elem, blockDim, Narrow(m.to));
                  && AllFit(S.ScatterWrites(p, m.src[layer][..], |srcIds|, m.dst[layer].Length), m.dst[layer].Length)
                  && m.dst[layer][..] == BlitAll(old(m.dst[layer][..]), S.ScatterWrites(p, m.src[layer][..], |srcIds|, m.dst[layer].Length))
                else m.dst[layer][..] == old(m.dst[layer][..])
    {
      if !ScatterArgs(elem, blockDim, srcTp, dstTp) {
        return InvalidArgument;
      }
      if !stagedLayers || !stagedIds {
        return LogicError;
      }
      var m := blockMap.value;
      if layer >= |m.src| {
        return OutOfRange;
      }
      var rc := L.ScatterAll(m.src[layer], m.dst[layer], SixDims(dims, srcTp, dstTp), elem, blockDim, Narrow(m.from), Narrow(m.to), |srcIds|);
      st := if rc != 0 then RuntimeError else Completed;
    }

    /** Ends the cycle: the staged ids and layers may be replaced. */
    method Reset()
      requires Valid()
      modifies this`stagedLayers, this`stagedIds
      ensures Valid() && !stagedLayers && !stagedIds
    {
      stagedLayers, stagedIds := false, false;
    }
  }
}
