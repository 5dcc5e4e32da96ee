/**
 * Helpers of gapanalysis/misc.py: the RemapValue list builder and the
 * fixed-threshold species-map validator, which is CheckHabitatMaps with its
 * default thresholds and `OverThree` as the key of the over-maximum list.
 */
module Misc {
  import opened Wrappers
  import opened RasterChecks

  /** `[[code, reclassValue] for code in mapUnitCodes]`. */
  function Remap(codes: seq<int>, reclassValue: int): seq<seq<int>>
  {
    seq(|codes|, i requires 0 <= i < |codes| => [codes[i], reclassValue])
  }

  /** MakeRemapList: one pair per code, in order. */
  method MakeRemapList(codes: seq<int>, reclassValue: int) returns (remap: seq<seq<int>>)
    ensures |remap| == |codes|
    ensures forall i :: 0 <= i < |codes| ==> remap[i] == [codes[i], reclassValue]
    ensures remap == Remap(codes, reclassValue)
  {
    remap := [];
    for j := 0 to |codes|
      invariant |remap| == j
      invariant forall i :: 0 <= i < j ==> remap[i] == [codes[i], reclassValue]
    {
      var o := [];
      o := o + [codes[j]];
      o := o + [reclassValue];
      remap := remap + [o];
    }
  }

  /** The docstring's example. */
  lemma RemapExample()
    ensures Remap([1201, 2543, 5678, 1234], 1) == [[1201, 1], [2543, 1], [5678, 1], [1234, 1]]
  {
  }

  /** Every pair of the list maps a listed code to the reclass value, and every code gets a pair. */
  lemma RemapCovers(codes: seq<int>, reclassValue: int)
    ensures forall p :: p in Remap(codes, reclassValue) <==> |p| == 2 && p[0] in codes && p[1] == reclassValue
  {
    var r := Remap(codes, reclassValue);
    forall p | |p| == 2 && p[0] in codes && p[1] == reclassValue ensures p in r {
      var i :| 0 <= i < |codes| && codes[i] == p[0];
      assert r[i] == [p[0], p[1]] == p;
    }
  }

  /** CheckRasters: the validator with the fixed thresholds (CheckHabitatMaps' defaults: Albers, TIFF, U8, NoData 0, 3), the over-3 list under `OverThree`. */
  method CheckRasters(rasters: seq<Option<RasterInfo>>) returns (result: Option<map<string, seq<string>>>)
    ensures result.Some? <==> Readable(rasters)
    ensures result.Some? ==> result.value == AsDict(AllFindings(Defaults, Values(rasters)), "OverThree")
  {
    var rep := CheckEach(Defaults, rasters);
    CheckAllFindings(Defaults, rasters);
    result := if rep.None? then None else Some(AsDict(rep.value, "OverThree"));
  }

  /** The two validators' dictionaries differ only in the key of the over-maximum list. */
  lemma SameListsOtherKey(rep: Report)
    ensures ("OverThree" in AsDict(rep, "OverThree")) && AsDict(rep, "OverThree")["OverThree"] == AsDict(rep, "overMax")["overMax"]
    ensures "overMax" !in AsDict(rep, "OverThree") && "OverThree" !in AsDict(rep, "overMax")
    ensures forall k :: k in AsDict(rep, "overMax") && k != "overMax" ==> k in AsDict(rep, "OverThree") && AsDict(rep, "OverThree")[k] == AsDict(rep, "overMax")[k]
  {
  }
}
