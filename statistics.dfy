/**
 * The run statistics (statistics.py): counters and per-paper lists that
 * the two recorders grow in place, setters for the values measured
 * elsewhere, and `finalize`, which derives the rates and averages.
 *
 * Python floats are reals here; the sizes `finalize` truncates with int()
 * are naturals divided with floor division.
 */
module RunStatistics {

  /** The error types the breakdown counts, in their declared order. */
  const BreakdownKeys: seq<string> := [
    "no_tex_source_pdf_only", "missing_versions", "download_timeout", "extraction_error",
    "api_rate_limit", "paper_not_found", "semantic_scholar_error", "invalid_archive", "network_error"]

  /** The `stats` dictionary. */
  datatype Stats = Stats(
    totalPapers: nat,
    successfulPapers: nat,
    failedPapers: nat,
    successRatePercent: real,
    errorBreakdown: map<string, nat>,
    totalVersionsScraped: nat,
    avgVersionsPerPaper: real,
    avgPaperSizeBeforeBytes: nat,
    avgPaperSizeAfterBytes: nat,
    totalReferencesScraped: nat,
    avgReferencesPerPaper: real,
    referenceSuccessRatePercent: real,
    totalRuntimeSeconds: real,
    entryDiscoveryTimeSeconds: real,
    avgTimePerPaperSeconds: real,
    maxRamMb: real,
    avgRamMb: real,
    maxCpuPercent: real,
    avgCpuPercent: real,
    maxDiskUsageMb: real,
    finalOutputSizeMb: real)

  /** The per-paper lists the success recorder appends to, and the count of papers with references. */
  datatype Track = Track(times: seq<real>, sizesBefore: seq<nat>, sizesAfter: seq<nat>, versions: seq<nat>,
                         references: seq<nat>, peakDisks: seq<nat>, withReferences: nat)

  /** The lists of a recorder that has seen no successful paper. */
  const NoPapers: Track := Track([], [], [], [], [], [], 0)

  function InitialBreakdown(): (m: map<string, nat>)
    ensures forall k :: k in m <==> k in BreakdownKeys
    ensures forall k :: k in m ==> m[k] == 0
  {
    map k | k in BreakdownKeys :: 0
  }

  function InitialStats(): Stats {
    Stats(0, 0, 0, 0.0, InitialBreakdown(), 0, 0.0, 0, 0, 0, 0.0, 0.0, 0.0, 0.0, 0.0, 0.0, 0.0, 0.0, 0.0, 0.0, 0.0)
  }

  // ---------------------------------------------------------------------
  // Sums, maxima and counts over the tracking lists
  // ---------------------------------------------------------------------

  function Sum(xs: seq<nat>): nat {
    if xs == [] then 0 else Sum(xs[..|xs| - 1]) + xs[|xs| - 1]
  }

  function SumReal(xs: seq<real>): real {
    if xs == [] then 0.0 else SumReal(xs[..|xs| - 1]) + xs[|xs| - 1]
  }

  function Max(xs: seq<nat>): nat
    requires xs != []
  {
    if |xs| == 1 then xs[0]
    else
      var m := Max(xs[..|xs| - 1]);
      if xs[|xs| - 1] > m then xs[|xs| - 1] else m
  }

  /** How many entries are positive. */
  function CountPositive(xs: seq<nat>): nat {
    if xs == [] then 0 else CountPositive(xs[..|xs| - 1]) + (if xs[|xs| - 1] > 0 then 1 else 0)
  }

  /** Appending one entry adds it to the sum, and counts it when it is positive. */
  lemma Appended(xs: seq<nat>, x: nat)
    ensures Sum(xs + [x]) == Sum(xs) + x
    ensures CountPositive(xs + [x]) == CountPositive(xs) + (if x > 0 then 1 else 0)
  {
    assert (xs + [x])[..|xs|] == xs;
  }

  /** `max` of a non-empty list: it bounds every entry and is one of them. */
  lemma {:induction false} MaxIsMax(xs: seq<nat>)
    requires xs != []
    ensures forall i :: 0 <= i < |xs| ==> xs[i] <= Max(xs)
    ensures exists i :: 0 <= i < |xs| && Max(xs) == xs[i]
  {
    if |xs| > 1 {
      var init := xs[..|xs| - 1];
      MaxIsMax(init);
      forall i | 0 <= i < |xs| - 1 ensures xs[i] <= Max(xs) {
        assert xs[i] == init[i];
      }
      if Max(xs) == Max(init) {
        var i :| 0 <= i < |init| && Max(init) == init[i];
        assert xs[i] == init[i];
      } else {
        assert Max(xs) == xs[|xs| - 1];
      }
    } else {
      assert Max(xs) == xs[0];
    }
  }

  /** At most every entry is positive, and exactly every one when all are. */
  lemma {:induction false} CountPositiveBounds(xs: seq<nat>)
    ensures CountPositive(xs) <= |xs|
    ensures CountPositive(xs) == |xs| <==> forall i :: 0 <= i < |xs| ==> xs[i] > 0
  {
    if xs != [] {
      var init := xs[..|xs| - 1];
      CountPositiveBounds(init);
      if CountPositive(xs) == |xs| {
        forall i | 0 <= i < |xs| ensures xs[i] > 0 {
          if i < |xs| - 1 { assert xs[i] == init[i]; }
        }
      } else if CountPositive(init) != |init| {
        var i :| 0 <= i < |init| && init[i] <= 0;
        assert xs[i] == init[i];
      }
    }
  }

  // ---------------------------------------------------------------------
  // The error breakdown
  // ---------------------------------------------------------------------

  /** The sum of the counts stored under the keys `ks`. */
  function SumAt(m: map<string, nat>, ks: seq<string>): nat
    requires forall k :: k in ks ==> k in m
  {
    if ks == [] then 0 else m[ks[0]] + SumAt(m, ks[1..])
  }

  /** The sum of all nine error counts. */
  function BreakdownTotal(m: map<string, nat>): nat
    requires forall k :: k in BreakdownKeys ==> k in m
  {
    SumAt(m, BreakdownKeys)
  }

  /** Counts that are all zero add up to zero. */
  lemma {:induction false} SumAtZero(m: map<string, nat>, ks: seq<string>)
    requires forall k :: k in ks ==> k in m && m[k] == 0
    ensures SumAt(m, ks) == 0
  {
    if ks != [] {
      SumAtZero(m, ks[1..]);
    }
  }

  /** The breakdown starts with no failure counted. */
  lemma InitialBreakdownEmpty()
    ensures BreakdownTotal(InitialBreakdown()) == 0
  {
    SumAtZero(InitialBreakdown(), BreakdownKeys);
  }

  predicate Distinct(ks: seq<string>) {
    forall i, j :: 0 <= i < j < |ks| ==> ks[i] != ks[j]
  }

  lemma BreakdownKeysDistinct()
    ensures Distinct(BreakdownKeys)
  {
  }

  /** Adding one to the count of a listed key adds one to the sum; a key not listed leaves it unchanged. */
  lemma {:induction false} SumAtBump(m: map<string, nat>, ks: seq<string>, key: string)
    requires Distinct(ks) && key in m
    requires forall k :: k in ks ==> k in m
    ensures key in ks ==> SumAt(m[key := m[key] + 1], ks) == SumAt(m, ks) + 1
    ensures key !in ks ==> SumAt(m[key := m[key] + 1], ks) == SumAt(m, ks)
  {
    if ks != [] {
      assert Distinct(ks[1..]) by {
        forall i, j | 0 <= i < j < |ks[1..]| ensures ks[1..][i] != ks[1..][j] {
          assert ks[1..][i] == ks[i + 1] && ks[1..][j] == ks[j + 1];
        }
      }
      SumAtBump(m, ks[1..], key);
      if key == ks[0] {
        assert key !in ks[1..] by {
          forall i | 0 <= i < |ks[1..]| ensures ks[1..][i] != key {
            assert ks[1..][i] == ks[i + 1];
          }
        }
      } else {
        assert key in ks ==> key in ks[1..] by {
          if key in ks {
            var i :| 0 <= i < |ks| && ks[i] == key;
            assert ks[1..][i - 1] == key;
          }
        }
      }
    }
  }

  /**
   * The breakdown after one failure of type `key`: its count goes up by
   * one when it is one of the nine keys, and nothing changes otherwise.
   */
  function Bumped(m: map<string, nat>, key: string): (r: map<string, nat>)
    requires forall k :: k in m <==> k in BreakdownKeys
    ensures forall k :: k in r <==> k in BreakdownKeys
    ensures key in BreakdownKeys ==> r[key] == m[key] + 1 && BreakdownTotal(r) == BreakdownTotal(m) + 1
    ensures forall k :: k in m && k != key ==> r[k] == m[k]
    ensures key !in BreakdownKeys ==> r == m
  {
    if key in m then
      BreakdownKeysDistinct();
      SumAtBump(m, BreakdownKeys, key);
      m[key := m[key] + 1]
    else m
  }

  // ---------------------------------------------------------------------
  // finalize
  // ---------------------------------------------------------------------

  /** `part / whole * 100` as a float. */
  function Percent(part: nat, whole: nat): real
    requires whole > 0
  {
    (part as real / whole as real) * 100.0
  }

  /** `total / count` as a float. */
  function MeanOf(total: real, count: nat): real
    requires count > 0
  {
    total / count as real
  }

  /** `int(total / count)` on naturals: the mean rounded down. */
  function FloorMean(total: nat, count: nat): nat
    requires count > 0
  {
    total / count
  }

  /** A percentage times the whole is a hundred times the part, and at most 100 when the part is at most the whole. */
  lemma PercentMeaning(part: nat, whole: nat)
    requires whole > 0
    ensures Percent(part, whole) * whole as real == part as real * 100.0
    ensures part <= whole ==> 0.0 <= Percent(part, whole) <= 100.0
  {
    var q := part as real / whole as real;
    assert q * whole as real == part as real;
  }

  /** A mean times the count is the total. */
  lemma MeanMeaning(total: real, count: nat)
    requires count > 0
    ensures MeanOf(total, count) * count as real == total
  {
  }

  /**
   * The statistics `finalize` leaves: the success rate when there is a
   * total, the averages and the reference rate when a paper succeeded, the
   * largest recorded peak in MiB when one was recorded; every other field
   * as it was.
   */
  function Finalized(s: Stats, times: seq<real>, sizesBefore: seq<nat>, sizesAfter: seq<nat>,
                     versions: seq<nat>, references: seq<nat>, peakDisks: seq<nat>, withReferences: nat): (r: Stats)
    ensures r.totalPapers == s.totalPapers && r.successfulPapers == s.successfulPapers
    ensures r.failedPapers == s.failedPapers && r.errorBreakdown == s.errorBreakdown
  {
    var total := s.totalPapers;
    var successful := s.successfulPapers;
    var s1 := if total > 0 then s.(successRatePercent := Percent(successful, total)) else s;
    var s2 :=
      if successful > 0 then
        s1.(avgVersionsPerPaper := MeanOf(Sum(versions) as real, successful),
            avgReferencesPerPaper := MeanOf(Sum(references) as real, successful),
            avgTimePerPaperSeconds := MeanOf(SumReal(times), successful),
            avgPaperSizeBeforeBytes := FloorMean(Sum(sizesBefore), successful),
            avgPaperSizeAfterBytes := FloorMean(Sum(sizesAfter), successful),
            referenceSuccessRatePercent := Percent(withReferences, successful))
      else s1;
    if peakDisks != [] then s2.(maxDiskUsageMb := Max(peakDisks) as real / 1048576.0) else s2
  }

  /** `finalize` changes only the eight derived fields: the counters, the breakdown and the measured values stay. */
  lemma FinalizedKeeps(s: Stats, times: seq<real>, sizesBefore: seq<nat>, sizesAfter: seq<nat>,
                       versions: seq<nat>, references: seq<nat>, peakDisks: seq<nat>, withReferences: nat)
    ensures var r := Finalized(s, times, sizesBefore, sizesAfter, versions, references, peakDisks, withReferences);
      && r.totalPapers == s.totalPapers && r.successfulPapers == s.successfulPapers
      && r.failedPapers == s.failedPapers && r.errorBreakdown == s.errorBreakdown
      && r.totalVersionsScraped == s.totalVersionsScraped && r.totalReferencesScraped == s.totalReferencesScraped
      && r.totalRuntimeSeconds == s.totalRuntimeSeconds && r.entryDiscoveryTimeSeconds == s.entryDiscoveryTimeSeconds
      && r.maxRamMb == s.maxRamMb && r.avgRamMb == s.avgRamMb
      && r.maxCpuPercent == s.maxCpuPercent && r.avgCpuPercent == s.avgCpuPercent
      && r.finalOutputSizeMb == s.finalOutputSizeMb
  {
  }

  /**
   * The success rate is successful/total as a percentage and is left alone
   * when the total is 0; the reference rate is a percentage between 0 and
   * 100 whenever at most every successful paper has references.
   */
  lemma FinalizedRates(s: Stats, times: seq<real>, sizesBefore: seq<nat>, sizesAfter: seq<nat>,
                       versions: seq<nat>, references: seq<nat>, peakDisks: seq<nat>, withReferences: nat)
    ensures var r := Finalized(s, times, sizesBefore, sizesAfter, versions, references, peakDisks, withReferences);
      && (s.totalPapers > 0 ==> r.successRatePercent * s.totalPapers as real == s.successfulPapers as real * 100.0)
      && (s.totalPapers == 0 ==> r.successRatePercent == s.successRatePercent)
      && (s.successfulPapers > 0 ==>
            r.referenceSuccessRatePercent * s.successfulPapers as real == withReferences as real * 100.0)
      && (0 < s.successfulPapers && withReferences <= s.successfulPapers ==>
            0.0 <= r.referenceSuccessRatePercent <= 100.0)
  {
    FinalizedRateFields(s, times, sizesBefore, sizesAfter, versions, references, peakDisks, withReferences);
    if s.totalPapers > 0 {
      PercentMeaning(s.successfulPapers, s.totalPapers);
    }
    if s.successfulPapers > 0 {
      PercentMeaning(withReferences, s.successfulPapers);
    }
  }

  /** The two rates `finalize` computes, as `Percent` of their counts. */
  lemma FinalizedRateFields(s: Stats, times: seq<real>, sizesBefore: seq<nat>, sizesAfter: seq<nat>,
                            versions: seq<nat>, references: seq<nat>, peakDisks: seq<nat>, withReferences: nat)
    ensures var r := Finalized(s, times, sizesBefore, sizesAfter, versions, references, peakDisks, withReferences);
      && (s.totalPapers > 0 ==> r.successRatePercent == Percent(s.successfulPapers, s.totalPapers))
      && (s.totalPapers == 0 ==> r.successRatePercent == s.successRatePercent)
      && (s.successfulPapers > 0 ==> r.referenceSuccessRatePercent == Percent(withReferences, s.successfulPapers))
  {
  }

  /** Integer division truncates: the mean's integer part times the count is within one count of the sum. */
  lemma Truncation(total: nat, count: nat)
    requires count > 0
    ensures (total / count) * count <= total < (total / count + 1) * count
  {
  }

  /** With a successful paper the average sizes are the integer part of the mean size. */
  lemma FinalizedSizes(s: Stats, times: seq<real>, sizesBefore: seq<nat>, sizesAfter: seq<nat>,
                       versions: seq<nat>, references: seq<nat>, peakDisks: seq<nat>, withReferences: nat)
    requires s.successfulPapers > 0
    ensures var r := Finalized(s, times, sizesBefore, sizesAfter, versions, references, peakDisks, withReferences);
      && r.avgPaperSizeBeforeBytes * s.successfulPapers <= Sum(sizesBefore) < (r.avgPaperSizeBeforeBytes + 1) * s.successfulPapers
      && r.avgPaperSizeAfterBytes * s.successfulPapers <= Sum(sizesAfter) < (r.avgPaperSizeAfterBytes + 1) * s.successfulPapers
  {
    var r := Finalized(s, times, sizesBefore, sizesAfter, versions, references, peakDisks, withReferences);
    var n := s.successfulPapers;
    assert r.avgPaperSizeBeforeBytes == FloorMean(Sum(sizesBefore), n) && r.avgPaperSizeAfterBytes == FloorMean(Sum(sizesAfter), n);
    Truncation(Sum(sizesBefore), n);
    Truncation(Sum(sizesAfter), n);
  }

  /** With a successful paper the version, reference and time averages are the means of their lists. */
  lemma FinalizedMeans(s: Stats, times: seq<real>, sizesBefore: seq<nat>, sizesAfter: seq<nat>,
                       versions: seq<nat>, references: seq<nat>, peakDisks: seq<nat>, withReferences: nat)
    requires s.successfulPapers > 0
    ensures var r := Finalized(s, times, sizesBefore, sizesAfter, versions, references, peakDisks, withReferences);
      && r.avgVersionsPerPaper == MeanOf(Sum(versions) as real, s.successfulPapers)
      && r.avgReferencesPerPaper == MeanOf(Sum(references) as real, s.successfulPapers)
      && r.avgTimePerPaperSeconds == MeanOf(SumReal(times), s.successfulPapers)
  {
  }

  /** With no successful paper the averages and the reference rate keep their values. */
  lemma FinalizedNoSuccess(s: Stats, times: seq<real>, sizesBefore: seq<nat>, sizesAfter: seq<nat>,
                           versions: seq<nat>, references: seq<nat>, peakDisks: seq<nat>, withReferences: nat)
    requires s.successfulPapers == 0
    ensures var r := Finalized(s, times, sizesBefore, sizesAfter, versions, references, peakDisks, withReferences);
      && r.avgVersionsPerPaper == s.avgVersionsPerPaper && r.avgReferencesPerPaper == s.avgReferencesPerPaper
      && r.avgTimePerPaperSeconds == s.avgTimePerPaperSeconds
      && r.avgPaperSizeBeforeBytes == s.avgPaperSizeBeforeBytes && r.avgPaperSizeAfterBytes == s.avgPaperSizeAfterBytes
      && r.referenceSuccessRatePercent == s.referenceSuccessRatePercent
  {
  }

  /** The disk figure is the largest recorded peak in MiB, or the value set before when no peak was recorded. */
  lemma FinalizedDisk(s: Stats, times: seq<real>, sizesBefore: seq<nat>, sizesAfter: seq<nat>,
                      versions: seq<nat>, references: seq<nat>, peakDisks: seq<nat>, withReferences: nat)
    ensures var r := Finalized(s, times, sizesBefore, sizesAfter, versions, references, peakDisks, withReferences);
      && (peakDisks != [] ==>
            && r.maxDiskUsageMb * 1048576.0 == Max(peakDisks) as real
            && forall i :: 0 <= i < |peakDisks| ==> peakDisks[i] as real <= r.maxDiskUsageMb * 1048576.0)
      && (peakDisks == [] ==> r.maxDiskUsageMb == s.maxDiskUsageMb)
  {
    if peakDisks != [] {
      MaxIsMax(peakDisks);
    }
  }

  /** Finalizing twice is finalizing once: `finalize` reads nothing it writes. */
  lemma FinalizedIdempotent(s: Stats, times: seq<real>, sizesBefore: seq<nat>, sizesAfter: seq<nat>,
                            versions: seq<nat>, references: seq<nat>, peakDisks: seq<nat>, withReferences: nat)
    ensures var once := Finalized(s, times, sizesBefore, sizesAfter, versions, references, peakDisks, withReferences);
      Finalized(once, times, sizesBefore, sizesAfter, versions, references, peakDisks, withReferences) == once
  {
  }

  // ---------------------------------------------------------------------
  // The accumulator
  // ---------------------------------------------------------------------

  class Statistics {
    var stats: Stats
    var paperTimes: seq<real>
    var paperSizesBefore: seq<nat>
    var paperSizesAfter: seq<nat>
    var paperVersions: seq<nat>
    var paperReferences: seq<nat>
    var paperPeakDisks: seq<nat>
    var papersWithReferences: nat

    /**
     * What the recorders keep true: the breakdown has exactly the nine
     * keys and never counts more failures than were recorded; one entry
     * per successful paper in each list; the totals are the sums of their
     * lists; the papers with references are those with a positive count.
     */
    ghost predicate Valid()
      reads this
    {
      && (forall k :: k in stats.errorBreakdown <==> k in BreakdownKeys)
      && BreakdownTotal(stats.errorBreakdown) <= stats.failedPapers
      && |paperTimes| == stats.successfulPapers
      && |paperSizesBefore| == stats.successfulPapers
      && |paperSizesAfter| == stats.successfulPapers
      && |paperVersions| == stats.successfulPapers
      && |paperReferences| == stats.successfulPapers
      && |paperPeakDisks| == stats.successfulPapers
      && stats.totalVersionsScraped == Sum(paperVersions)
      && stats.totalReferencesScraped == Sum(paperReferences)
      && papersWithReferences == CountPositive(paperReferences)
    }

    /** The per-paper lists and the count of papers with references, which only the success recorder changes. */
    ghost function Tracking(): Track
      reads this
    {
      Track(paperTimes, paperSizesBefore, paperSizesAfter, paperVersions, paperReferences, paperPeakDisks, papersWithReferences)
    }

    /** A recorder that has seen nothing: every counter zero, every list empty. */
    constructor ()
      ensures Valid()
      ensures stats == InitialStats()
      ensures paperTimes == [] && paperSizesBefore == [] && paperSizesAfter == []
      ensures paperVersions == [] && paperReferences == [] && paperPeakDisks == []
      ensures papersWithReferences == 0
    {
      InitialBreakdownEmpty();
      stats := InitialStats();
      paperTimes, paperSizesBefore, paperSizesAfter := [], [], [];
      paperVersions, paperReferences, paperPeakDisks := [], [], [];
      papersWithReferences := 0;
      new;
      assert stats.errorBreakdown == InitialBreakdown();
    }

    /** The papers with references never outnumber the successful papers. */
    lemma WithReferencesBounded()
      requires Valid()
      ensures papersWithReferences <= stats.successfulPapers
    {
      CountPositiveBounds(paperReferences);
    }

    /**
     * add_successful_paper: one more success, its versions and references
     * added to the totals, one entry appended to each list, and one more
     * paper with references exactly when it has any.
     */
    method AddSuccessfulPaper(versionsCount: nat, sizeBefore: nat, sizeAfter: nat,
                              referencesCount: nat, processingTime: real, peakDisk: nat)
      requires Valid()
      modifies this
      ensures Valid()
      ensures stats == old(stats).(successfulPapers := old(stats.successfulPapers) + 1,
                                   totalVersionsScraped := old(stats.totalVersionsScraped) + versionsCount,
                                   totalReferencesScraped := old(stats.totalReferencesScraped) + referencesCount)
      ensures paperTimes == old(paperTimes) + [processingTime]
      ensures paperSizesBefore == old(paperSizesBefore) + [sizeBefore]
      ensures paperSizesAfter == old(paperSizesAfter) + [sizeAfter]
      ensures paperVersions == old(paperVersions) + [versionsCount]
      ensures paperReferences == old(paperReferences) + [referencesCount]
      ensures paperPeakDisks == old(paperPeakDisks) + [peakDisk]
      ensures papersWithReferences == old(papersWithReferences) + (if referencesCount > 0 then 1 else 0)
    {
      Appended(paperVersions, versionsCount);
      Appended(paperReferences, referencesCount);
      stats := stats.(successfulPapers := stats.successfulPapers + 1,
                      totalVersionsScraped := stats.totalVersionsScraped + versionsCount,
                      totalReferencesScraped := stats.totalReferencesScraped + referencesCount);
      paperTimes := paperTimes + [processingTime];
      paperSizesBefore := paperSizesBefore + [sizeBefore];
      paperSizesAfter := paperSizesAfter + [sizeAfter];
      paperVersions := paperVersions + [versionsCount];
      paperReferences := paperReferences + [referencesCount];
      paperPeakDisks := paperPeakDisks + [peakDisk];
      if referencesCount > 0 {
        papersWithReferences := papersWithReferences + 1;
      }
    }

    /**
     * add_failed_paper: one more failure, and one more under its error
     * type when that type is one of the nine; no key is ever added.
     */
    method AddFailedPaper(errorType: string)
      requires Valid()
      modifies this
      ensures Valid()
      ensures stats == old(stats).(
        failedPapers := old(stats.failedPapers) + 1,
        errorBreakdown := Bumped(old(stats.errorBreakdown), errorType))
      ensures errorType in BreakdownKeys ==> BreakdownTotal(stats.errorBreakdown) == old(BreakdownTotal(stats.errorBreakdown)) + 1
      ensures errorType !in BreakdownKeys ==> stats.errorBreakdown == old(stats.errorBreakdown)
      ensures Tracking() == old(Tracking())
    {
      stats := stats.(failedPapers := stats.failedPapers + 1, errorBreakdown := Bumped(stats.errorBreakdown, errorType));
    }

    /** set_total_papers. */
    method SetTotalPapers(total: nat)
      requires Valid()
      modifies this
      ensures Valid()
      ensures stats == old(stats).(totalPapers := total)
      ensures Tracking() == old(Tracking())
    {
      stats := stats.(totalPapers := total);
    }

    /** set_timing. */
    method SetTiming(totalRuntime: real, entryDiscoveryTime: real)
      requires Valid()
      modifies this
      ensures Valid()
      ensures stats == old(stats).(totalRuntimeSeconds := totalRuntime, entryDiscoveryTimeSeconds := entryDiscoveryTime)
      ensures Tracking() == old(Tracking())
    {
      stats := stats.(totalRuntimeSeconds := totalRuntime, entryDiscoveryTimeSeconds := entryDiscoveryTime);
    }

    /** set_resources. */
    method SetResources(maxRam: real, avgRam: real, maxCpu: real, avgCpu: real, diskUsage: real, outputSize: real)
      requires Valid()
      modifies this
      ensures Valid()
      ensures stats == old(stats).(maxRamMb := maxRam, avgRamMb := avgRam, maxCpuPercent := maxCpu,
                                   avgCpuPercent := avgCpu, maxDiskUsageMb := diskUsage, finalOutputSizeMb := outputSize)
      ensures Tracking() == old(Tracking())
    {
      stats := stats.(maxRamMb := maxRam, avgRamMb := avgRam, maxCpuPercent := maxCpu, avgCpuPercent := avgCpu);
      stats := stats.(maxDiskUsageMb := diskUsage, finalOutputSizeMb := outputSize);
    }

    /** finalize: derives the rates and averages from the counters and lists, which it leaves alone. */
    method Finalize()
      requires Valid()
      modifies this
      ensures Valid()
      ensures stats == Finalized(old(stats), paperTimes, paperSizesBefore, paperSizesAfter,
                                 paperVersions, paperReferences, paperPeakDisks, papersWithReferences)
      ensures stats.successfulPapers > 0 ==> 0.0 <= stats.referenceSuccessRatePercent <= 100.0
      ensures Tracking() == old(Tracking())
    {
      WithReferencesBounded();
      if stats.successfulPapers > 0 {
        PercentMeaning(papersWithReferences, stats.successfulPapers);
      }
      var s := stats;
      var total := s.totalPapers;
      var successful := s.successfulPapers;
      if total > 0 {
        s := s.(successRatePercent := Percent(successful, total));
      }
      if successful > 0 {
        s := s.(avgVersionsPerPaper := MeanOf(Sum(paperVersions) as real, successful));
        s := s.(avgReferencesPerPaper := MeanOf(Sum(paperReferences) as real, successful));
        s := s.(avgTimePerPaperSeconds := MeanOf(SumReal(paperTimes), successful));
        s := s.(avgPaperSizeBeforeBytes := FloorMean(Sum(paperSizesBefore), successful));
        s := s.(avgPaperSizeAfterBytes := FloorMean(Sum(paperSizesAfter), successful));
      }
      if successful > 0 {
        s := s.(referenceSuccessRatePercent := Percent(papersWithReferences, successful));
      }
      if paperPeakDisks != [] {
        s := s.(maxDiskUsageMb := Max(paperPeakDisks) as real / 1048576.0);
      }
      stats := s;
    }

    /** save: finalize, then write the statistics; what is written is the finalized dictionary. */
    method Save() returns (written: Stats)
      requires Valid()
      modifies this
      ensures Valid()
      ensures stats == Finalized(old(stats), paperTimes, paperSizesBefore, paperSizesAfter,
                                 paperVersions, paperReferences, paperPeakDisks, papersWithReferences)
      ensures written == stats
      ensures Tracking() == old(Tracking())
    {
      Finalize();
      written := stats;
    }
  }
}
