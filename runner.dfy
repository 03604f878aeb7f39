/**
 * The driver (main.py): build the id range, resume from the progress
 * file, process the papers not yet done, record each result in the
 * statistics and the progress set, and finalize the statistics.
 *
 * Papers are processed one after another in the order of the work list;
 * the thread pool, the order in which futures complete and the keyboard
 * interrupt are not part of this model. What each paper's processing
 * meets is an input per paper id (`envs`), and so is the I/O error, if
 * any, that saving the progress file raises (`saveErrors`).
 */
module Runner {
  import opened Wrappers
  import opened Utils
  import opened Citations
  import opened Scraper
  import opened RunStatistics

  // ---------------------------------------------------------------------
  // Progress file and work list
  // ---------------------------------------------------------------------

  /**
   * load_progress: the ids stored under 'processed' in the progress file,
   * or none when there is no file, it is empty, or it has no such entry.
   */
  function LoadProgress(loaded: Option<map<string, seq<string>>>): (processed: set<string>)
    ensures forall id :: id in processed <==>
      loaded.Some? && "processed" in loaded.value && id in loaded.value["processed"]
  {
    if loaded.Some? && "processed" in loaded.value then set id | id in loaded.value["processed"] else {}
  }

  /** The ids still to process, in their original order. */
  function Remaining(paperIds: seq<string>, processed: set<string>): (remaining: seq<string>)
    ensures |remaining| <= |paperIds|
  {
    if paperIds == [] then []
    else
      var init := Remaining(paperIds[..|paperIds| - 1], processed);
      var last := paperIds[|paperIds| - 1];
      if last in processed then init else init + [last]
  }

  /** An id is still to do exactly when it is in the range and not yet processed. */
  lemma {:induction false} RemainingMembers(paperIds: seq<string>, processed: set<string>)
    ensures forall id :: id in Remaining(paperIds, processed) <==> id in paperIds && id !in processed
  {
    if paperIds != [] {
      var init := paperIds[..|paperIds| - 1];
      RemainingMembers(init, processed);
      assert paperIds == init + [paperIds[|paperIds| - 1]];
    }
  }

  /** Filtering a concatenation filters each part in turn, so the work list keeps the range's order. */
  lemma {:induction false} RemainingAppend(a: seq<string>, b: seq<string>, processed: set<string>)
    ensures Remaining(a + b, processed) == Remaining(a, processed) + Remaining(b, processed)
    decreases |b|
  {
    if b == [] {
      assert a + b == a;
    } else {
      var initB := b[..|b| - 1];
      RemainingAppend(a, initB, processed);
      assert (a + b)[..|a + b| - 1] == a + initB;
      assert b[..|b| - 1] == initB;
    }
  }

  /** With nothing processed the work list is the whole range. */
  lemma {:induction false} RemainingAll(paperIds: seq<string>)
    ensures Remaining(paperIds, {}) == paperIds
  {
    if paperIds != [] {
      RemainingAll(paperIds[..|paperIds| - 1]);
    }
  }

  /** An id outside the list does not change what the list keeps. */
  lemma {:induction false} RemainingIgnores(paperIds: seq<string>, processed: set<string>, id: string)
    requires id !in paperIds
    ensures Remaining(paperIds, processed) == Remaining(paperIds, processed - {id})
  {
    if paperIds != [] {
      var init := paperIds[..|paperIds| - 1];
      assert id !in init by { assert forall x :: x in init ==> x in paperIds; }
      RemainingIgnores(init, processed, id);
    }
  }

  /**
   * When every processed id lies in a range without repeats, the work list
   * and the processed ids together account for the whole range.
   */
  lemma {:induction false} RemainingCount(paperIds: seq<string>, processed: set<string>)
    requires Distinct(paperIds)
    requires forall id :: id in processed ==> id in paperIds
    ensures |Remaining(paperIds, processed)| + |processed| == |paperIds|
  {
    if paperIds == [] {
      assert processed == {};
    } else {
      var init := paperIds[..|paperIds| - 1];
      var last := paperIds[|paperIds| - 1];
      assert Distinct(init);
      assert last !in init by {
        forall i | 0 <= i < |init| ensures init[i] != last {
          assert init[i] == paperIds[i];
        }
      }
      if last in processed {
        var rest := processed - {last};
        forall id | id in rest ensures id in init {
          var i :| 0 <= i < |paperIds| && paperIds[i] == id;
          assert i < |init| && init[i] == id;
        }
        RemainingCount(init, rest);
        RemainingIgnores(init, processed, last);
      } else {
        forall id | id in processed ensures id in init {
          var i :| 0 <= i < |paperIds| && paperIds[i] == id;
          assert i < |init| && init[i] == id;
        }
        RemainingCount(init, processed);
      }
    }
  }

  // ---------------------------------------------------------------------
  // The processed set and the progress file
  // ---------------------------------------------------------------------

  /**
   * Where save_progress fails, if it does: before the file is opened
   * (creating the directory, opening it), which leaves the file as it was,
   * or while the JSON is written into the file `open(..., 'w')` has
   * already emptied, which leaves it truncated.
   */
  datatype SaveFault = BeforeOpen(message: string) | DuringWrite(message: string)

  /** The message process_single_paper reports for a failed save, if any. */
  function FaultMessage(fault: Option<SaveFault>): (m: Option<string>)
    ensures m.Some? <==> fault.Some?
  {
    if fault.Some? then Some(fault.value.message) else None
  }

  /** The progress file as this run leaves it: not yet written, holding a set, or cut short. */
  datatype ProgressFile = Untouched | Holds(processed: set<string>) | Truncated

  /** The shared `processed_papers` set, and the progress file save_progress writes. */
  class ProgressLedger {
    var processed: set<string>
    var saved: ProgressFile

    constructor (initial: set<string>)
      ensures processed == initial && saved == Untouched
    {
      processed := initial;
      saved := Untouched;
    }

    /** processed_papers.add. */
    method Add(paperId: string)
      modifies this
      ensures processed == old(processed) + {paperId}
      ensures saved == old(saved)
    {
      processed := processed + {paperId};
    }

    /**
     * save_progress: writes the set, or raises `fault`'s message. A fault
     * before the open leaves the file as it was; a fault during the write
     * leaves it truncated.
     */
    method Save(fault: Option<SaveFault>) returns (raised: Option<string>)
      modifies this
      ensures raised == FaultMessage(fault)
      ensures fault.None? ==> saved == Holds(processed)
      ensures fault.Some? && fault.value.BeforeOpen? ==> saved == old(saved)
      ensures fault.Some? && fault.value.DuringWrite? ==> saved == Truncated
      ensures processed == old(processed)
    {
      raised := FaultMessage(fault);
      if fault.None? {
        saved := Holds(processed);
      } else if fault.value.DuringWrite? {
        saved := Truncated;
      }
    }
  }

  // ---------------------------------------------------------------------
  // process_single_paper
  // ---------------------------------------------------------------------

  /**
   * process_single_paper: the paper is scraped and its outcome recorded.
   */
  method ProcessSinglePaper(paperId: string, scraper: ArxivScraper, env: PaperEnv, saveError: Option<SaveFault>,
                            stats: Statistics, ledger: ProgressLedger)
    returns (success: bool, error: Option<string>)
    requires stats.Valid()
    modifies scraper.limiter, stats, ledger
    ensures stats.Valid()
    ensures stats.stats.totalPapers == old(stats.stats.totalPapers)
    ensures var o := ExpectedOutcome(paperId, env, scraper.maxRetries);
      && Current(stats, ledger) == Record(old(Current(stats, ledger)), paperId, o, saveError)
      && (success <==> o.Success? && saveError.None?)
      && error == (if o.Failure? then Some(o.kind.Key()) else FaultMessage(saveError))
      && ledger.saved == SavedAfter(old(ledger.saved), ledger.processed, o, saveError)
      && stats.stats.errorBreakdown == BreakdownAfter(old(stats.stats.errorBreakdown), o, saveError)
  {
    var outcome, _ := scraper.ProcessPaper(paperId, env);
    success, error := RecordOutcome(paperId, outcome, saveError, stats, ledger);
  }

  /**
   * What process_single_paper does with an outcome. A success is recorded,
   * added to the processed set and saved; a failure is recorded under its
   * error key and leaves the processed set alone. When saving the progress
   * raises, the paper has already been recorded as a success and is
   * recorded once more as a network_error failure.
   */
  method RecordOutcome(paperId: string, outcome: Outcome, saveError: Option<SaveFault>,
                       stats: Statistics, ledger: ProgressLedger)
    returns (success: bool, error: Option<string>)
    requires stats.Valid()
    modifies stats, ledger
    ensures stats.Valid()
    ensures stats.stats.totalPapers == old(stats.stats.totalPapers)
    ensures Current(stats, ledger) == Record(old(Current(stats, ledger)), paperId, outcome, saveError)
    ensures success <==> outcome.Success? && saveError.None?
    ensures error == (if outcome.Failure? then Some(outcome.kind.Key()) else FaultMessage(saveError))
    ensures ledger.saved == SavedAfter(old(ledger.saved), ledger.processed, outcome, saveError)
    ensures stats.stats.errorBreakdown == BreakdownAfter(old(stats.stats.errorBreakdown), outcome, saveError)
  {
    if outcome.Success? {
      success, error := RecordSuccess(paperId, outcome, saveError, stats, ledger);
    } else {
      var errorType := outcome.kind.Key();
      stats.AddFailedPaper(errorType);
      return false, Some(errorType);
    }
  }

  /** The success branch of process_single_paper: record, add, save, and count a failed save. */
  method RecordSuccess(paperId: string, outcome: Outcome, saveError: Option<SaveFault>,
                       stats: Statistics, ledger: ProgressLedger)
    returns (success: bool, error: Option<string>)
    requires stats.Valid() && outcome.Success?
    modifies stats, ledger
    ensures stats.Valid()
    ensures stats.stats.totalPapers == old(stats.stats.totalPapers)
    ensures Current(stats, ledger) == Record(old(Current(stats, ledger)), paperId, outcome, saveError)
    ensures success <==> saveError.None?
    ensures error == FaultMessage(saveError)
    ensures ledger.saved == SavedAfter(old(ledger.saved), ledger.processed, outcome, saveError)
    ensures stats.stats.errorBreakdown == BreakdownAfter(old(stats.stats.errorBreakdown), outcome, saveError)
  {
    ghost var after := Record(Current(stats, ledger), paperId, outcome, saveError);
    stats.AddSuccessfulPaper(outcome.versions, outcome.sizeBefore, outcome.sizeAfter,
                             outcome.references, outcome.time, outcome.peakDisk);
    assert stats.Tracking() == after.track;
    ledger.Add(paperId);
    error := ledger.Save(saveError);
    success := error.None?;
    if error.Some? {
      // the except branch: the exception's message is returned
      stats.AddFailedPaper(NetworkError.Key());
    }
    assert stats.stats == after.stats;
  }

  /**
   * The error breakdown after one paper: a failure counts under its key; a
   * success whose progress save raised counts under network_error; a
   * saved success leaves the breakdown alone.
   */
  function BreakdownAfter(m: map<string, nat>, o: Outcome, saveError: Option<SaveFault>): (r: map<string, nat>)
    requires forall k :: k in m <==> k in BreakdownKeys
    ensures forall k :: k in r <==> k in BreakdownKeys
    ensures BreakdownTotal(r) == BreakdownTotal(m) + (if o.Failure? || saveError.Some? then 1 else 0)
    ensures o.Failure? ==> r[o.kind.Key()] == m[o.kind.Key()] + 1
    ensures o.Success? && saveError.Some? ==> r[NetworkError.Key()] == m[NetworkError.Key()] + 1
    ensures forall k :: k in m && !(o.Failure? && k == o.kind.Key()) && !(o.Success? && saveError.Some? && k == NetworkError.Key()) ==>
                          r[k] == m[k]
  {
    ErrorKindsCounted(NetworkError);
    if o.Failure? then ErrorKindsCounted(o.kind); Bumped(m, o.kind.Key())
    else if saveError.Some? then Bumped(m, NetworkError.Key())
    else m
  }

  /** The progress file after one paper: only a success is saved, and the save may fail. */
  function SavedAfter(file: ProgressFile, processed: set<string>, o: Outcome, saveError: Option<SaveFault>): (r: ProgressFile)
    ensures o.Failure? ==> r == file
    ensures o.Success? && saveError.None? ==> r == Holds(processed)
    ensures r.Truncated? ==> file.Truncated? || (o.Success? && saveError.Some? && saveError.value.DuringWrite?)
  {
    if o.Failure? then file
    else if saveError.None? then Holds(processed)
    else if saveError.value.DuringWrite? then Truncated
    else file
  }

  /** Every error key process_paper returns is one of the nine the breakdown counts. */
  lemma ErrorKindsCounted(kind: ErrorKind)
    ensures kind.Key() in BreakdownKeys
  {
  }

  // ---------------------------------------------------------------------
  // main
  // ---------------------------------------------------------------------

  /** How main ends: the range was malformed, nothing was left to do, or the statistics were saved. */
  datatype RunEnd =
    | Aborted
    | NothingToDo(processed: set<string>)
    | Finished(stats: Stats, processed: set<string>, completed: nat)

  /** The measured values main hands to the statistics before saving. */
  datatype Measured = Measured(
    totalRuntime: real,
    entryDiscoveryTime: real,
    maxRamMb: real,
    avgRamMb: real,
    maxCpuPercent: real,
    avgCpuPercent: real,
    outputSizeMb: real)

  /** What processing accumulates: the processed set, the statistics and the per-paper lists. */
  datatype Tally = Tally(processed: set<string>, stats: Stats, track: Track)

  /** The tally held by the statistics and the processed set. */
  ghost function Current(stats: Statistics, ledger: ProgressLedger): Tally
    reads stats, ledger
  {
    Tally(ledger.processed, stats.stats, stats.Tracking())
  }

  /** The error breakdown has exactly the nine keys. */
  ghost predicate Keyed(t: Tally) {
    forall k :: k in t.stats.errorBreakdown <==> k in BreakdownKeys
  }

  /** How many papers the tally counts as successes or failures. */
  function Counted(t: Tally): nat {
    t.stats.successfulPapers + t.stats.failedPapers
  }

  /**
   * One paper's effect on the tally. A success joins the processed set,
   * counts as a success, adds its versions and references to the totals
   * and appends its figures to the lists; a failure counts as a failure
   * under its key; a success whose progress save raised also counts as a
   * network_error failure. Nothing else in the statistics changes.
   */
  function Record(t: Tally, paperId: string, o: Outcome, saveError: Option<SaveFault>): (r: Tally)
    requires Keyed(t)
    ensures Keyed(r)
    ensures r.processed == (if o.Success? then t.processed + {paperId} else t.processed)
    ensures Counted(r) >= Counted(t) + 1
    ensures saveError.None? ==> Counted(r) == Counted(t) + 1
  {
    var s := t.stats;
    var breakdown := BreakdownAfter(s.errorBreakdown, o, saveError);
    var failed := if o.Failure? || saveError.Some? then s.failedPapers + 1 else s.failedPapers;
    if o.Failure? then
      Tally(t.processed, s.(failedPapers := failed, errorBreakdown := breakdown), t.track)
    else
      var tr := t.track;
      Tally(t.processed + {paperId},
            s.(successfulPapers := s.successfulPapers + 1, failedPapers := failed, errorBreakdown := breakdown,
               totalVersionsScraped := s.totalVersionsScraped + o.versions,
               totalReferencesScraped := s.totalReferencesScraped + o.references),
            Track(tr.times + [o.time], tr.sizesBefore + [o.sizeBefore], tr.sizesAfter + [o.sizeAfter],
                  tr.versions + [o.versions], tr.references + [o.references], tr.peakDisks + [o.peakDisk],
                  tr.withReferences + (if o.references > 0 then 1 else 0)))
  }

  /**
   * What one paper changes in the statistics and the lists: a success adds
   * one success, its versions and references, and its figures at the end of
   * every list; a failure adds one failure under its key and leaves the
   * lists; a success whose save raised also adds a network_error failure.
   * No other field of the statistics changes.
   */
  lemma RecordFields(t: Tally, paperId: string, o: Outcome, saveError: Option<SaveFault>)
    requires Keyed(t)
    ensures var r := Record(t, paperId, o, saveError);
      && r.stats.successfulPapers == t.stats.successfulPapers + (if o.Success? then 1 else 0)
      && r.stats.failedPapers == t.stats.failedPapers + (if o.Failure? || saveError.Some? then 1 else 0)
      && r.stats.errorBreakdown == BreakdownAfter(t.stats.errorBreakdown, o, saveError)
      && (o.Success? ==>
            && r.stats.totalVersionsScraped == t.stats.totalVersionsScraped + o.versions
            && r.stats.totalReferencesScraped == t.stats.totalReferencesScraped + o.references
            && r.track == Track(t.track.times + [o.time], t.track.sizesBefore + [o.sizeBefore],
                                t.track.sizesAfter + [o.sizeAfter], t.track.versions + [o.versions],
                                t.track.references + [o.references], t.track.peakDisks + [o.peakDisk],
                                t.track.withReferences + (if o.references > 0 then 1 else 0)))
      && (o.Failure? ==> r.track == t.track)
      && r.stats == t.stats.(successfulPapers := r.stats.successfulPapers,
                             failedPapers := r.stats.failedPapers,
                             errorBreakdown := r.stats.errorBreakdown,
                             totalVersionsScraped := r.stats.totalVersionsScraped,
                             totalReferencesScraped := r.stats.totalReferencesScraped)
  {
  }

  /** The outcome process_paper gives each paper id, with that paper's inputs. */
  function Outcomes(envs: string -> PaperEnv, maxRetries: nat): string -> Outcome {
    id => ExpectedOutcome(id, envs(id), maxRetries)
  }

  /** The tally after processing `ids` in order, starting from `t`, when paper `id` ends in `outcomes(id)`. */
  function Tallied(t: Tally, ids: seq<string>, outcomes: string -> Outcome, saveErrors: string -> Option<SaveFault>): (r: Tally)
    requires Keyed(t)
    ensures Keyed(r)
    ensures t.processed <= r.processed
    ensures r.stats.totalPapers == t.stats.totalPapers
  {
    if ids == [] then t
    else
      var last := ids[|ids| - 1];
      Record(Tallied(t, ids[..|ids| - 1], outcomes, saveErrors), last, outcomes(last), saveErrors(last))
  }

  /** Processing one more paper records its outcome on the tally so far. */
  lemma TalliedStep(t: Tally, ids: seq<string>, i: nat, outcomes: string -> Outcome,
                    saveErrors: string -> Option<SaveFault>)
    requires Keyed(t) && i < |ids|
    ensures Tallied(t, ids[..i + 1], outcomes, saveErrors)
      == Record(Tallied(t, ids[..i], outcomes, saveErrors), ids[i], outcomes(ids[i]), saveErrors(ids[i]))
  {
    assert ids[..i + 1][..i] == ids[..i];
  }

  /** The processed set grows by exactly the papers whose processing succeeds. */
  lemma {:induction false} TalliedProcessed(t: Tally, ids: seq<string>, outcomes: string -> Outcome,
                                            saveErrors: string -> Option<SaveFault>, id: string)
    requires Keyed(t)
    ensures id in Tallied(t, ids, outcomes, saveErrors).processed
      <==> id in t.processed || (id in ids && outcomes(id).Success?)
  {
    if ids != [] {
      var init := ids[..|ids| - 1];
      var last := ids[|ids| - 1];
      TalliedProcessed(t, init, outcomes, saveErrors, id);
      InitOrLast(ids, id);
    }
  }

  /** An element of a non-empty list is in all but its last entry, or is that entry. */
  lemma InitOrLast(ids: seq<string>, id: string)
    requires ids != []
    ensures id in ids <==> id in ids[..|ids| - 1] || id == ids[|ids| - 1]
  {
    assert ids == ids[..|ids| - 1] + [ids[|ids| - 1]];
  }

  /**
   * Every paper is counted as a success or a failure, or as both when its
   * progress save raised; with no save errors the counts add up to the
   * number of papers.
   */
  lemma {:induction false} EveryPaperCounted(t: Tally, ids: seq<string>, outcomes: string -> Outcome,
                                             saveErrors: string -> Option<SaveFault>)
    requires Keyed(t)
    ensures Counted(Tallied(t, ids, outcomes, saveErrors)) >= Counted(t) + |ids|
    ensures (forall id :: saveErrors(id).None?) ==> Counted(Tallied(t, ids, outcomes, saveErrors)) == Counted(t) + |ids|
  {
    if ids != [] {
      EveryPaperCounted(t, ids[..|ids| - 1], outcomes, saveErrors);
    }
  }

  /**
   * Every failure the tally adds is counted under exactly one of the nine
   * keys, so the breakdown grows by as much as the failure count.
   */
  lemma {:induction false} TalliedBreakdown(t: Tally, ids: seq<string>, outcomes: string -> Outcome,
                                            saveErrors: string -> Option<SaveFault>)
    requires Keyed(t)
    ensures var r := Tallied(t, ids, outcomes, saveErrors);
      BreakdownTotal(r.stats.errorBreakdown) + t.stats.failedPapers
        == BreakdownTotal(t.stats.errorBreakdown) + r.stats.failedPapers
  {
    if ids != [] {
      TalliedBreakdown(t, ids[..|ids| - 1], outcomes, saveErrors);
    }
  }

  /**
   * The loop over the work list: each paper is processed and counted once.
   * The completed counter starts at the size of the processed set.
   */
  method ProcessAll(remainingPapers: seq<string>, scraper: ArxivScraper, envs: string -> PaperEnv,
                    saveErrors: string -> Option<SaveFault>, stats: Statistics, ledger: ProgressLedger)
    returns (completed: nat)
    requires stats.Valid()
    modifies scraper.limiter, stats, ledger
    ensures stats.Valid()
    ensures completed == |old(ledger.processed)| + |remainingPapers|
    ensures Current(stats, ledger)
      == Tallied(old(Current(stats, ledger)), remainingPapers, Outcomes(envs, scraper.maxRetries), saveErrors)
    ensures stats.stats.totalPapers == old(stats.stats.totalPapers)
  {
    ghost var start := Current(stats, ledger);
    completed := |ledger.processed|;
    for i := 0 to |remainingPapers|
      invariant stats.Valid()
      invariant completed == |start.processed| + i
      invariant Current(stats, ledger) == Tallied(start, remainingPapers[..i], Outcomes(envs, scraper.maxRetries), saveErrors)
      invariant stats.stats.totalPapers == old(stats.stats.totalPapers)
    {
      var paperId := remainingPapers[i];
      completed := completed + 1;
      TalliedStep(start, remainingPapers, i, Outcomes(envs, scraper.maxRetries), saveErrors);
      var success, error := ProcessSinglePaper(paperId, scraper, envs(paperId), saveErrors(paperId), stats, ledger);
    }
    assert remainingPapers[..|remainingPapers|] == remainingPapers;
  }

  /**
   * main. With a well-formed range and work to do, every remaining paper is
   * processed once, the processed set only grows (by exactly the papers
   * that succeeded), the completed counter ends at the number processed
   * before plus the number of papers in the work list, and the saved
   * statistics count every success and every failure against the range's
   * size.
   */
  method Run(startId: string, endId: string, resume: bool, loaded: Option<map<string, seq<string>>>,
             apiKey: string, maxRetries: nat, envs: string -> PaperEnv, saveErrors: string -> Option<SaveFault>,
             measured: Measured)
    returns (result: RunEnd)
    ensures PaperIdRange(startId, endId).None? <==> result.Aborted?
    ensures PaperIdRange(startId, endId).Some? ==>
      var paperIds := PaperIdRange(startId, endId).value;
      var prior := if resume then LoadProgress(loaded) else {};
      var remaining := Remaining(paperIds, prior);
      && (remaining == [] <==> result.NothingToDo?)
      && (result.NothingToDo? ==> result.processed == prior)
      && (result.Finished? ==>
            && var t := Tallied(Started(prior, |paperIds|), remaining, Outcomes(envs, maxRetries), saveErrors);
            && result.processed == t.processed
            && result.completed == |prior| + |remaining|
            && result.stats == Reported(t.stats, t.track, measured))
  {
    var ids := GeneratePaperIds(startId, endId);
    if ids.None? {
      // a malformed id (see ParseNat) stops main, as int() raising does
      return Aborted;
    }
    var paperIds := ids.value;
    var totalPapers := |paperIds|;
    var processedPapers: set<string> := {};
    if resume {
      processedPapers := LoadProgress(loaded);
    }
    var remainingPapers := Remaining(paperIds, processedPapers);
    if remainingPapers == [] {
      return NothingToDo(processedPapers);
    }
    var written, processed, completed := ScrapeAndReport(|paperIds|, processedPapers, remainingPapers, apiKey,
                                                         maxRetries, envs, saveErrors, measured);
    return Finished(written, processed, completed);
  }

  /**
   * The part of main after the work list is known: set up the statistics,
   * the scraper and the processed set, process every remaining paper, then
   * record the timings and resources and save the statistics.
   */
  method ScrapeAndReport(totalPapers: nat, processedPapers: set<string>, remainingPapers: seq<string>,
                         apiKey: string, maxRetries: nat, envs: string -> PaperEnv,
                         saveErrors: string -> Option<SaveFault>, measured: Measured)
    returns (written: Stats, processed: set<string>, completed: nat)
    ensures var t := Tallied(Started(processedPapers, totalPapers), remainingPapers, Outcomes(envs, maxRetries), saveErrors);
      && processed == t.processed
      && completed == |processedPapers| + |remainingPapers|
      && written == Reported(t.stats, t.track, measured)
  {
    var stats := new Statistics();
    stats.SetTotalPapers(totalPapers);
    var scraper := new ArxivScraper(apiKey, maxRetries);
    var ledger := new ProgressLedger(processedPapers);
    completed := ProcessAll(remainingPapers, scraper, envs, saveErrors, stats, ledger);
    processed := ledger.processed;
    written := Report(stats, measured);
  }

  /** The tally main starts from: the ids already processed, and statistics with only the total set. */
  function Started(processed: set<string>, totalPapers: nat): (t: Tally)
    ensures Keyed(t) && Counted(t) == 0
  {
    Tally(processed, InitialStats().(totalPapers := totalPapers), NoPapers)
  }

  /**
   * The statistics main saves: the timings and resources it measured and a
   * disk figure of 0 are set, then finalize derives the rates, the averages
   * and the disk figure from the per-paper lists.
   */
  function Reported(s: Stats, tr: Track, m: Measured): (r: Stats)
    ensures r.totalPapers == s.totalPapers && r.successfulPapers == s.successfulPapers
    ensures r.failedPapers == s.failedPapers && r.errorBreakdown == s.errorBreakdown
    ensures r.totalVersionsScraped == s.totalVersionsScraped && r.totalReferencesScraped == s.totalReferencesScraped
    ensures r.totalRuntimeSeconds == m.totalRuntime && r.entryDiscoveryTimeSeconds == m.entryDiscoveryTime
    ensures r.maxRamMb == m.maxRamMb && r.avgRamMb == m.avgRamMb
    ensures r.maxCpuPercent == m.maxCpuPercent && r.avgCpuPercent == m.avgCpuPercent
    ensures r.finalOutputSizeMb == m.outputSizeMb
  {
    var measuredStats := s.(totalRuntimeSeconds := m.totalRuntime, entryDiscoveryTimeSeconds := m.entryDiscoveryTime,
                   maxRamMb := m.maxRamMb, avgRamMb := m.avgRamMb, maxCpuPercent := m.maxCpuPercent,
                   avgCpuPercent := m.avgCpuPercent, maxDiskUsageMb := 0.0, finalOutputSizeMb := m.outputSizeMb);
    FinalizedKeeps(measuredStats, tr.times, tr.sizesBefore, tr.sizesAfter, tr.versions, tr.references, tr.peakDisks, tr.withReferences);
    Finalized(measuredStats, tr.times, tr.sizesBefore, tr.sizesAfter, tr.versions, tr.references, tr.peakDisks, tr.withReferences)
  }

  /**
   * The derived figures of what main saves: the disk figure is the largest
   * paper peak in MiB, or the 0 main set when no paper succeeded; the
   * success rate is successful/total as a percentage.
   */
  lemma ReportedDerived(s: Stats, tr: Track, m: Measured)
    ensures var r := Reported(s, tr, m);
      && (tr.peakDisks == [] ==> r.maxDiskUsageMb == 0.0)
      && (tr.peakDisks != [] ==> r.maxDiskUsageMb * 1048576.0 == Max(tr.peakDisks) as real)
      && (s.totalPapers > 0 ==> r.successRatePercent * s.totalPapers as real == s.successfulPapers as real * 100.0)
  {
    var measuredStats := s.(totalRuntimeSeconds := m.totalRuntime, entryDiscoveryTimeSeconds := m.entryDiscoveryTime,
                            maxRamMb := m.maxRamMb, avgRamMb := m.avgRamMb, maxCpuPercent := m.maxCpuPercent,
                            avgCpuPercent := m.avgCpuPercent, maxDiskUsageMb := 0.0, finalOutputSizeMb := m.outputSizeMb);
    FinalizedRates(measuredStats, tr.times, tr.sizesBefore, tr.sizesAfter, tr.versions, tr.references, tr.peakDisks, tr.withReferences);
    FinalizedDisk(measuredStats, tr.times, tr.sizesBefore, tr.sizesAfter, tr.versions, tr.references, tr.peakDisks, tr.withReferences);
  }

  /**
   * The end of main: the timings and the resources are recorded and the
   * statistics are finalized and saved, keeping the paper counts.
   */
  method Report(stats: Statistics, measured: Measured) returns (written: Stats)
    requires stats.Valid()
    modifies stats
    ensures written == Reported(old(stats.stats), old(stats.Tracking()), measured)
    ensures stats.Tracking() == old(stats.Tracking())
    ensures written.totalPapers == old(stats.stats.totalPapers)
    ensures written.successfulPapers == old(stats.stats.successfulPapers)
    ensures written.failedPapers == old(stats.stats.failedPapers)
    ensures written.totalRuntimeSeconds == measured.totalRuntime
    ensures written.finalOutputSizeMb == measured.outputSizeMb
  {
    stats.SetTiming(measured.totalRuntime, measured.entryDiscoveryTime);
    stats.SetResources(measured.maxRamMb, measured.avgRamMb, measured.maxCpuPercent, measured.avgCpuPercent,
                       0.0, measured.outputSizeMb);
    written := stats.Save();
    FinalizedKeeps(written, stats.paperTimes, stats.paperSizesBefore, stats.paperSizesAfter,
                   stats.paperVersions, stats.paperReferences, stats.paperPeakDisks, stats.papersWithReferences);
  }

  /**
   * When the processed ids all lie in the range, the completed counter
   * ends exactly at the number of papers in the range.
   */
  lemma CompletedReachesTotal(startId: string, endId: string, prior: set<string>)
    requires PaperIdRange(startId, endId).Some?
    requires '.' !in RangeBounds(startId, endId).value.0
    requires forall id :: id in prior ==> id in PaperIdRange(startId, endId).value
    ensures |prior| + |Remaining(PaperIdRange(startId, endId).value, prior)| == |PaperIdRange(startId, endId).value|
  {
    var ids := PaperIdRange(startId, endId).value;
    forall i, j | 0 <= i < j < |ids| ensures ids[i] != ids[j] {
      RangeIncreasing(startId, endId, i, j);
    }
    RemainingCount(ids, prior);
  }
}
