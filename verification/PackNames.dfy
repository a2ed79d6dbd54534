/** Names of the coverage bridging script: regions, pack ids, strategies and exchange suffixes. */
module PackNames {
  import opened Options
  import opened Text

  const PACK_SUFFIX := "-stooq-daily"

  /** Region of an archive file name. */
  function CleanRegionName(zipName: string): string {
    var base := Replace(Lower(zipName), ".zip", "");
    var base' := if "d_" <= base then base[2..] else base;
    if EndsWith(base', "_txt") then base'[..|base'| - 4] else base'
  }

  function DerivePackId(region: string): string {
    region + PACK_SUFFIX
  }

  /** The region the script recovers from a pack id. */
  function RegionOfPackId(packId: string): string {
    Replace(packId, PACK_SUFFIX, "")
  }

  datatype Strategy = Stock | Fx | Macro

  function ClassifyBridgingStrategy(region: string): Strategy {
    var r := Lower(region);
    if "fx" <= r || Contains(r, "fx") then Fx
    else if "macro" <= r || Contains(r, "macro") then Macro
    else Stock
  }

  /** A region with "fx" in its name is a currency region, one with "macro" but no "fx" a macro region, in any case. */
  lemma StrategyIff(region: string)
    ensures ClassifyBridgingStrategy(region) == Fx <==> Contains(Lower(region), "fx")
    ensures ClassifyBridgingStrategy(region) == Macro <==>
              Contains(Lower(region), "macro") && !Contains(Lower(region), "fx")
  {
    var r := Lower(region);
    assert "fx" <= r ==> OccursAt(r, "fx", 0);
    assert "macro" <= r ==> OccursAt(r, "macro", 0);
  }

  /** Removes a recognised exchange suffix; None means the symbol is not bridged. */
  function StripExchangeSuffix(symbol: string): Option<string> {
    if symbol == "" then None
    else if symbol[0] == '^' then Some(symbol)
    else
      var dot := LastIndexOf(symbol, '.');
      if dot >= 0 && RecognisedSuffix(symbol[dot + 1..]) then Some(symbol[..dot]) else Some(symbol)
  }

  predicate RecognisedSuffix(suffix: string) {
    2 <= |suffix| <= 3 && forall i :: 0 <= i < |suffix| ==> IsLetter(suffix[i])
  }

  /** `base.suffix` loses its suffix exactly if that is two or three letters and the symbol is no index. */
  lemma StripIff(base: string, suffix: string)
    requires '.' !in suffix
    ensures StripExchangeSuffix(base + "." + suffix) == Some(base) <==>
              2 <= |suffix| <= 3 && (forall c :: c in suffix ==> c in CAPITALS || c in SMALL_LETTERS) && !("^" <= base)
  {
    var symbol := base + "." + suffix;
    var dot := LastIndexOf(symbol, '.');
    assert symbol[|base|] == '.';
    assert forall k :: |base| < k < |symbol| ==> symbol[k] == suffix[k - |base| - 1];
    assert forall k :: |base| < k < |symbol| ==> symbol[k] != '.';
    assert dot == |base|;
    assert symbol[dot + 1..] == suffix && symbol[..dot] == base;
    assert "^" <= base <==> symbol[0] == '^';
    RecognisedIff(suffix);
    hide LastIndexOf, RecognisedSuffix;
  }

  lemma RecognisedIff(suffix: string)
    ensures RecognisedSuffix(suffix) <==>
              2 <= |suffix| <= 3 && forall c :: c in suffix ==> c in CAPITALS || c in SMALL_LETTERS
  {
    forall c ensures IsLetter(c) <==> c in CAPITALS || c in SMALL_LETTERS {
      LettersIff(c);
    }
    hide IsLetter;
    assert forall i :: 0 <= i < |suffix| ==> suffix[i] in suffix;
  }

  /** Whatever is stripped is a recognised suffix with its dot; only the empty symbol is not bridged. */
  lemma StripDecomposes(symbol: string)
    ensures var r := StripExchangeSuffix(symbol);
            && (r.None? <==> symbol == "")
            && (r.Some? && r.value != symbol ==>
                  exists suffix :: RecognisedSuffix(suffix) && symbol == r.value + "." + suffix)
  {
    var r := StripExchangeSuffix(symbol);
    if r.Some? && r.value != symbol {
      var dot := LastIndexOf(symbol, '.');
      var suffix := symbol[dot + 1..];
      assert symbol == symbol[..dot] + "." + suffix;
    }
  }

  /** The pack suffix cannot overlap itself: its only other dash is followed by another letter. */
  lemma PackSuffixUnbordered()
    ensures Unbordered(PACK_SUFFIX)
  {
    var part := PACK_SUFFIX;
    forall n | 0 < n < |part| ensures part[n..] != part[..|part| - n] {
      assert part[n..][0] == part[n] && part[..|part| - n][0] == '-';
      if n == 6 {
        assert part[n..][1] == 'd' && part[..|part| - n][1] == 's';
      }
    }
  }

  /** Recovering the region from the pack id works exactly for regions that do not contain the pack suffix. */
  lemma RegionRoundTripIff(region: string)
    ensures RegionOfPackId(DerivePackId(region)) == region <==> !Contains(region, PACK_SUFFIX)
  {
    PackSuffixUnbordered();
    RemoveAppendedIff(region, PACK_SUFFIX);
  }

  /** Recovering any region from its pack id removes every occurrence of the pack suffix from it. */
  lemma RegionOfDerivedId(region: string)
    ensures RegionOfPackId(DerivePackId(region)) == Replace(region, PACK_SUFFIX, "")
  {
    PackSuffixUnbordered();
    RemoveAppended(region, PACK_SUFFIX);
  }

  /** The strategy chosen for a pack is the one of its region without pack suffixes, so of the region itself if it
      has none. */
  lemma StrategyFromRegion(region: string)
    ensures var strategy := ClassifyBridgingStrategy(RegionOfPackId(DerivePackId(region)));
            && strategy == ClassifyBridgingStrategy(Replace(region, PACK_SUFFIX, ""))
            && (!Contains(region, PACK_SUFFIX) ==> strategy == ClassifyBridgingStrategy(region))
  {
    RegionOfDerivedId(region);
    if !Contains(region, PACK_SUFFIX) {
      ReplaceAbsent(region, PACK_SUFFIX, "");
    }
  }

  const SPLIT_FX := "f-stooq-dailyx"

  lemma SplitFxIsStock()
    ensures ClassifyBridgingStrategy(SPLIT_FX) == Stock
  {
    assert Lower(SPLIT_FX) == SPLIT_FX;
    forall i | 0 <= i <= |SPLIT_FX| ensures !OccursAt(SPLIT_FX, "fx", i) && !OccursAt(SPLIT_FX, "macro", i) {
      if i + 2 <= |SPLIT_FX| {
        assert SPLIT_FX[i..i + 2][0] == SPLIT_FX[i] && SPLIT_FX[i..i + 2][1] == SPLIT_FX[i + 1];
      }
      if i + 5 <= |SPLIT_FX| {
        assert SPLIT_FX[i..i + 5][0] == SPLIT_FX[i];
      }
    }
    assert SPLIT_FX[1] == '-';
  }

  lemma SplitFxIsJoined()
    ensures Replace(SPLIT_FX, PACK_SUFFIX, "") == "fx"
  {
    assert SPLIT_FX[1..] == PACK_SUFFIX + "x";
    assert SPLIT_FX[1..][|PACK_SUFFIX|..] == "x";
    assert Replace("x", PACK_SUFFIX, "") == "x";
    assert Replace(SPLIT_FX[1..], PACK_SUFFIX, "") == "x";
    assert SPLIT_FX[0] != PACK_SUFFIX[0];
  }

  /** Removing a pack suffix inside a region can create a strategy's name. */
  lemma StrategyCanChange()
    ensures ClassifyBridgingStrategy(SPLIT_FX) == Stock
    ensures ClassifyBridgingStrategy(RegionOfPackId(DerivePackId(SPLIT_FX))) == Fx
  {
    SplitFxIsStock();
    SplitFxIsJoined();
    RegionOfDerivedId(SPLIT_FX);
    assert Lower("fx") == "fx";
    hide Replace;
  }

  /** Different regions have different pack ids. */
  lemma PackIdInjective(a: string, b: string)
    ensures DerivePackId(a) == DerivePackId(b) <==> a == b
  {
    if DerivePackId(a) == DerivePackId(b) {
      assert a == DerivePackId(a)[..|a|] && |a| == |b|;
    }
  }

  /** An archive named after a region in the distribution's own way is read back as that region. */
  lemma ArchiveNameRoundTrip(region: string)
    requires Lower(region) == region && !Contains(region, ".zip")
    ensures CleanRegionName("d_" + region + "_txt.zip") == region
  {
    RegionOfArchive("d_" + region + "_txt.zip", "d_", region, "_txt");
    assert "_txt" + ".zip" == "_txt.zip";
    assert "d_" + region + "_txt" + ".zip" == "d_" + region + "_txt.zip";
    assert Lower("d_" + region + "_txt.zip") == "d_" + region + "_txt.zip";
    hide CleanRegionName;
  }

  /** An archive may be named in any case, and without the d_ in front or the _txt behind. */
  lemma RegionOfArchive(zipName: string, front: string, region: string, back: string)
    requires Lower(zipName) == front + region + back + ".zip" && !Contains(region, ".zip")
    requires front == "d_" || (front == "" && !("d_" <= region + back))
    requires back == "_txt" || (back == "" && !EndsWith(region, "_txt"))
    ensures CleanRegionName(zipName) == region
  {
    RemoveZip(front, region, back);
    hide Replace, Contains, Lower;
    var stem := front + region + back;
    assert stem == front + (region + back);
    assert stem[|front|..] == region + back;
    assert back == "" ==> region + back == region;
    assert (region + back)[..|region|] == region && (region + back)[|region|..] == back;
    assert front == "d_" <==> "d_" <= stem;
  }

  lemma RemoveZip(front: string, region: string, back: string)
    requires '.' !in front && 'p' !in back && !Contains(region, ".zip")
    ensures Replace(front + region + back + ".zip", ".zip", "") == front + region + back
  {
    var stem := front + region + back;
    forall i: nat | i <= |stem| ensures !OccursAt(stem, ".zip", i) {
      if OccursAt(stem, ".zip", i) {
        NoZipInStem(front, region, back, i);
      }
    }
    assert Unbordered(".zip") by {
      var ext := ".zip";
      forall n | 0 < n < |ext| ensures ext[n..] != ext[..|ext| - n] {
        assert ext[n..][0] == ext[n] && ext[..|ext| - n][0] == '.';
      }
    }
    RemoveAppendedIff(stem, ".zip");
    hide Replace;
  }

  lemma NoZipInStem(front: string, region: string, back: string, i: nat)
    requires '.' !in front && 'p' !in back && OccursAt(front + region + back, ".zip", i)
    ensures Contains(region, ".zip")
  {
    var stem := front + region + back;
    var part := stem[i..i + 4];
    assert part == ".zip";
    assert stem[i] == part[0] && stem[i + 3] == part[3];
    assert forall k :: 0 <= k < |front| ==> stem[k] == front[k] != '.';
    assert forall k :: |front| + |region| <= k < |stem| ==> stem[k] == back[k - |front| - |region|] != 'p';
    var k := i - |front|;
    assert region[k..k + 4] == stem[i..i + 4];
    assert OccursAt(region, ".zip", k);
  }
}
