/**
 * The per-paper pipeline of the scraper (ArxivScraper.process_paper): look
 * the paper up, work out how many versions it has and their dates, download
 * and extract every version, fetch its references, and classify the result.
 *
 * Everything the pipeline reads from outside is an input gathered in a
 * `PaperEnv`: the arXiv metadata lookup, the dates found on the abstract
 * page, today's date, what each version download returns, what each
 * Semantic Scholar request returns and how long it takes, the clock when
 * the paper starts, and the processing time the result reports.
 */
module Scraper {
  import opened Wrappers
  import opened Utils
  import opened RateLimiting
  import opened Extraction
  import opened Citations

  /** The fields of an arXiv search result the pipeline reads; an absent journal reference is "". */
  datatype Paper = Paper(entryId: string, title: string, authors: seq<string>, published: string, journalRef: string)

  /** The inputs of one `process_paper` run. */
  datatype PaperEnv = PaperEnv(
    metadata: Option<Paper>,
    foundDates: Option<seq<string>>,
    today: string,
    downloads: nat -> VersionResponse,
    replies: nat -> Reply,
    callDurations: nat -> nat,
    now: int,
    elapsed: real)

  /** The four error results `process_paper` can return. */
  datatype ErrorKind = PaperNotFound | NoTexSourcePdfOnly | SemanticScholarError | NetworkError
  {
    /** The string stored under 'error'. */
    function Key(): string
    {
      match this
      case PaperNotFound => "paper_not_found"
      case NoTexSourcePdfOnly => "no_tex_source_pdf_only"
      case SemanticScholarError => "semantic_scholar_error"
      case NetworkError => "network_error"
    }
  }

  /** Each error result has its own key. */
  lemma ErrorKeysDistinct()
    ensures forall e1: ErrorKind, e2: ErrorKind :: e1.Key() == e2.Key() ==> e1 == e2
  {
  }

  /** The content of metadata.json. */
  datatype Metadata = Metadata(
    paperTitle: string,
    authors: seq<string>,
    submissionDate: string,
    revisedDates: seq<string>,
    publicationVenue: string)

  /** The dictionary `process_paper` returns, with the files it writes on success. */
  datatype Outcome =
    | Success(
        versions: nat,
        sizeBefore: nat,
        sizeAfter: nat,
        peakDisk: nat,
        references: nat,
        time: real,
        metadata: Metadata,
        referenceFile: map<string, RefEntry>)
    | Failure(kind: ErrorKind)

  // ---------------------------------------------------------------------
  // Versions and their dates
  // ---------------------------------------------------------------------

  /** Python's int() on a string of digits with an optional sign. */
  function ParseInt(s: string): (r: Option<int>)
    ensures r.Some? <==> (|s| > 0 && AllDigits(s)) || (|s| > 1 && (s[0] == '+' || s[0] == '-') && AllDigits(s[1..]))
  {
    if |s| > 1 && s[0] == '-' && AllDigits(s[1..]) then Some(-(ParseNat(s[1..]).value as int))
    else if |s| > 1 && s[0] == '+' && AllDigits(s[1..]) then Some(ParseNat(s[1..]).value as int)
    else match ParseNat(s)
      case None => None
      case Some(n) => Some(n)
  }

  /**
   * The latest version number: the integer after the last 'v' of the entry
   * id, or 1 when it has no 'v'. None stands for the ValueError int() raises on a string ParseInt rejects.
   */
  function LatestVersion(entryId: string): (r: Option<int>)
    ensures 'v' !in entryId ==> r == Some(1)
  {
    if 'v' in entryId then ParseInt(AfterLast(entryId, 'v')) else Some(1)
  }

  /** An entry id ending in `v<n>` has latest version n. */
  lemma LatestOfVersionedEntry(base: string, n: nat)
    ensures LatestVersion(base + "v" + Decimal(n)) == Some(n)
  {
    var d := Decimal(n);
    DigitsLackLetter(d, 'v');
    assert base + "v" + d == base + ['v'] + d;
    SplitAtLast(base, 'v', d);
    assert 'v' in base + ['v'] + d by { assert (base + ['v'] + d)[|base|] == 'v'; }
    ParseDecimal(n);
  }

  /** The number of versions, `len(range(1, latest + 1))`. */
  function VersionCount(latest: int): (n: nat)
    ensures latest >= 0 ==> n == latest
    ensures latest <= 0 ==> n == 0
  {
    if latest > 0 then latest else 0
  }

  /** _get_version_dates: the dates found on the abstract page when there is one per version, else none. */
  function CheckedDates(found: Option<seq<string>>, numVersions: nat): (dates: seq<string>)
    ensures dates == [] || |dates| == numVersions
    ensures found.Some? && |found.value| == numVersions ==> dates == found.value
    ensures !(found.Some? && |found.value| == numVersions) ==> dates == []
  {
    match found
    case None => []
    case Some(ds) => if |ds| == numVersions then ds else []
  }

  /**
   * The date each version is downloaded with: the found dates when their
   * count is right, and today for every version otherwise.
   */
  function VersionDates(found: Option<seq<string>>, numVersions: nat, today: string): (dates: seq<string>)
    ensures |dates| == numVersions
    ensures found.Some? && |found.value| == numVersions ==> dates == found.value
    ensures !(found.Some? && |found.value| == numVersions) ==> forall i :: 0 <= i < |dates| ==> dates[i] == today
  {
    var checked := CheckedDates(found, numVersions);
    if checked != [] then checked else seq(numVersions, _ => today)
  }

  // ---------------------------------------------------------------------
  // The per-version loop
  // ---------------------------------------------------------------------

  /** The id of version `num` of a paper, f"{paper_id}v{num}". */
  function VersionId(paperId: string, num: nat): string {
    paperId + "v" + Decimal(num)
  }

  /** What each version's download reports (None where it raised). */
  function VersionResults(dates: seq<string>, today: string, downloads: nat -> VersionResponse): (fs: seq<Option<VersionFetch>>)
    ensures |fs| == |dates|
    ensures forall i :: 0 <= i < |fs| ==> fs[i] == VersionOutcome(dates[i], today, downloads(i + 1))
  {
    seq(|dates|, i requires 0 <= i < |dates| => VersionOutcome(dates[i], today, downloads(i + 1)))
  }

  /** The versions that downloaded, in version order. */
  function Successes(fs: seq<Option<VersionFetch>>): (vs: seq<VersionFetch>)
    ensures |vs| <= |fs|
  {
    if fs == [] then []
    else
      var init := Successes(fs[..|fs| - 1]);
      match fs[|fs| - 1]
      case None => init
      case Some(v) => init + [v]
  }

  function SumBefore(vs: seq<VersionFetch>): nat {
    if vs == [] then 0 else SumBefore(vs[..|vs| - 1]) + vs[|vs| - 1].sizeBefore
  }

  function SumAfter(vs: seq<VersionFetch>): nat {
    if vs == [] then 0 else SumAfter(vs[..|vs| - 1]) + vs[|vs| - 1].sizeAfter
  }

  function MaxPeak(vs: seq<VersionFetch>): nat {
    if vs == [] then 0
    else
      var m := MaxPeak(vs[..|vs| - 1]);
      if vs[|vs| - 1].peak > m then vs[|vs| - 1].peak else m
  }

  function DatesOf(vs: seq<VersionFetch>): (ds: seq<string>)
    ensures |ds| == |vs|
  {
    if vs == [] then [] else DatesOf(vs[..|vs| - 1]) + [vs[|vs| - 1].date]
  }

  /**
   * A version is kept exactly when its download succeeded, and the kept
   * versions keep their order: the failed ones are skipped, not fatal.
   */
  lemma {:induction false} SuccessesMeaning(fs: seq<Option<VersionFetch>>)
    ensures forall v :: v in Successes(fs) <==> Some(v) in fs
    ensures Successes(fs) == [] <==> forall i :: 0 <= i < |fs| ==> fs[i].None?
  {
    if fs != [] {
      var init := fs[..|fs| - 1];
      SuccessesMeaning(init);
      assert fs == init + [fs[|fs| - 1]];
      if Successes(fs) == [] {
        forall i | 0 <= i < |fs| ensures fs[i].None? {
          if i < |fs| - 1 { assert fs[i] == init[i]; }
        }
      }
    }
  }

  /** Appending one version's result to the loop's record. */
  lemma SuccessesAppend(fs: seq<Option<VersionFetch>>, f: Option<VersionFetch>)
    ensures Successes(fs + [f]) == if f.Some? then Successes(fs) + [f.value] else Successes(fs)
  {
    assert (fs + [f])[..|fs|] == fs;
  }

  /** No extracted bytes at all exactly when every kept version extracted nothing. */
  lemma {:induction false} NothingExtractedIff(vs: seq<VersionFetch>)
    ensures SumAfter(vs) == 0 <==> forall i :: 0 <= i < |vs| ==> vs[i].sizeAfter == 0
  {
    if vs != [] {
      var init := vs[..|vs| - 1];
      NothingExtractedIff(init);
      if SumAfter(vs) == 0 {
        forall i | 0 <= i < |vs| ensures vs[i].sizeAfter == 0 {
          if i < |vs| - 1 { assert vs[i] == init[i]; }
        }
      } else if SumAfter(init) != 0 {
        var i :| 0 <= i < |init| && init[i].sizeAfter != 0;
        assert vs[i] == init[i];
      }
    }
  }

  /** The peak is the largest single-version peak, and 0 when nothing downloaded. */
  lemma {:induction false} MaxPeakIsMax(vs: seq<VersionFetch>)
    ensures forall i :: 0 <= i < |vs| ==> vs[i].peak <= MaxPeak(vs)
    ensures vs == [] ==> MaxPeak(vs) == 0
    ensures vs != [] ==> exists i :: 0 <= i < |vs| && MaxPeak(vs) == vs[i].peak
  {
    if vs != [] {
      var init := vs[..|vs| - 1];
      MaxPeakIsMax(init);
      forall i | 0 <= i < |vs| - 1 ensures vs[i].peak <= MaxPeak(vs) {
        assert vs[i] == init[i];
      }
      if init != [] && MaxPeak(vs) == MaxPeak(init) {
        var i :| 0 <= i < |init| && MaxPeak(init) == init[i].peak;
        assert vs[i] == init[i];
      }
    }
  }

  /** The peak never exceeds the total downloaded plus extracted bytes when each version's peak is its two sizes added. */
  lemma {:induction false} PeakWithinTotal(vs: seq<VersionFetch>)
    requires forall i :: 0 <= i < |vs| ==> vs[i].peak == vs[i].sizeBefore + vs[i].sizeAfter
    ensures MaxPeak(vs) <= SumBefore(vs) + SumAfter(vs)
  {
    if vs != [] {
      var init := vs[..|vs| - 1];
      forall i | 0 <= i < |init| ensures init[i].peak == init[i].sizeBefore + init[i].sizeAfter {
        assert init[i] == vs[i];
      }
      PeakWithinTotal(init);
    }
  }

  /** Every fetched version reports its peak as its two sizes added. */
  lemma FetchedPeaks(fs: seq<Option<VersionFetch>>, dates: seq<string>, today: string, downloads: nat -> VersionResponse)
    requires fs == VersionResults(dates, today, downloads)
    ensures forall i :: 0 <= i < |Successes(fs)| ==>
      Successes(fs)[i].peak == Successes(fs)[i].sizeBefore + Successes(fs)[i].sizeAfter
  {
    SuccessesMeaning(fs);
    forall i | 0 <= i < |Successes(fs)|
      ensures Successes(fs)[i].peak == Successes(fs)[i].sizeBefore + Successes(fs)[i].sizeAfter
    {
      var v := Successes(fs)[i];
      assert Some(v) in fs;
      var j :| 0 <= j < |fs| && fs[j] == Some(v);
    }
  }

  /**
   * The loop over versions in process_paper: download each version under
   * its own id, skip the ones that fail, and total the sizes, the peak and
   * the dates of the ones that succeed.
   */
  method DownloadVersions(paperId: string, versionDates: seq<string>, today: string, downloads: nat -> VersionResponse)
    returns (sizeBefore: nat, sizeAfter: nat, peakDiskUsage: nat, allDates: seq<string>)
    ensures var vs := Successes(VersionResults(versionDates, today, downloads));
      && sizeBefore == SumBefore(vs) && sizeAfter == SumAfter(vs)
      && peakDiskUsage == MaxPeak(vs) && allDates == DatesOf(vs)
  {
    ghost var fs := VersionResults(versionDates, today, downloads);
    sizeBefore, sizeAfter, peakDiskUsage := 0, 0, 0;
    allDates := [];
    for idx := 0 to |versionDates|
      invariant sizeBefore == SumBefore(Successes(fs[..idx]))
      invariant sizeAfter == SumAfter(Successes(fs[..idx]))
      invariant peakDiskUsage == MaxPeak(Successes(fs[..idx]))
      invariant allDates == DatesOf(Successes(fs[..idx]))
    {
      var versionId := VersionId(paperId, idx + 1);
      var fetch, _ := DownloadAndExtractVersion(versionId, versionDates[idx], today, downloads(idx + 1));
      SuccessesAppend(fs[..idx], fs[idx]);
      assert fs[..idx + 1] == fs[..idx] + [fs[idx]];
      if fetch.Some? {
        ghost var kept := Successes(fs[..idx]);
        assert (kept + [fetch.value])[..|kept|] == kept;
        sizeBefore := sizeBefore + fetch.value.sizeBefore;
        sizeAfter := sizeAfter + fetch.value.sizeAfter;
        peakDiskUsage := if fetch.value.peak > peakDiskUsage then fetch.value.peak else peakDiskUsage;
        allDates := allDates + [fetch.value.date];
      }
    }
    assert fs[..|versionDates|] == fs;
  }

  // ---------------------------------------------------------------------
  // metadata.json (ArxivScraper._save_metadata)
  // ---------------------------------------------------------------------

  /**
   * The submission date is the first kept version's date (the published
   * date when none was kept), the revised dates are all kept dates in
   * order and never empty, and the venue is Semantic Scholar's, else the
   * journal reference, else "".
   */
  function SaveMetadata(paper: Paper, allDates: seq<string>, venue: string): (m: Metadata)
    ensures |m.revisedDates| >= 1 && m.revisedDates[0] == m.submissionDate
    ensures allDates != [] ==> m.revisedDates == allDates
    ensures allDates == [] ==> m.revisedDates == [paper.published]
    ensures venue != "" ==> m.publicationVenue == venue
    ensures venue == "" ==> m.publicationVenue == paper.journalRef
    ensures m.paperTitle == paper.title && m.authors == paper.authors
  {
    var submission := if allDates != [] then allDates[0] else paper.published;
    var revised := if allDates != [] then allDates else [submission];
    var publicationVenue := if venue != "" then venue else (if paper.journalRef != "" then paper.journalRef else "");
    Metadata(paper.title, paper.authors, submission, revised, publicationVenue)
  }

  // ---------------------------------------------------------------------
  // The whole pipeline
  // ---------------------------------------------------------------------

  /** The result `process_paper` returns for `paperId` with inputs `env`. */
  function ExpectedOutcome(paperId: string, env: PaperEnv, maxRetries: nat): Outcome
  {
    match env.metadata
    case None => Failure(PaperNotFound)
    case Some(paper) =>
      match LatestVersion(paper.entryId)
      case None => Failure(NetworkError)
      case Some(latest) =>
        var n := VersionCount(latest);
        var vs := Successes(VersionResults(VersionDates(env.foundDates, n, env.today), env.today, env.downloads));
        if SumAfter(vs) == 0 then Failure(NoTexSourcePdfOnly)
        else
          var fetched := RetryPolicy(env.replies, maxRetries, 0);
          if !fetched.success then Failure(SemanticScholarError)
          else
            var refMap := ReferenceMap(fetched.references);
            Success(n, SumBefore(vs), SumAfter(vs), MaxPeak(vs), |refMap|, env.elapsed,
                    SaveMetadata(paper, DatesOf(vs), fetched.venue), refMap)
  }

  /** The versions that downloaded for a paper whose metadata and version number were found. */
  function KeptVersions(env: PaperEnv, latest: int): seq<VersionFetch> {
    Successes(VersionResults(VersionDates(env.foundDates, VersionCount(latest), env.today), env.today, env.downloads))
  }

  /** Some kept version extracted source exactly when the extracted total is not 0. */
  lemma SomeSourceIff(vs: seq<VersionFetch>)
    ensures SumAfter(vs) > 0 <==> exists v :: v in vs && v.sizeAfter > 0
  {
    NothingExtractedIff(vs);
    if SumAfter(vs) > 0 {
      var i :| 0 <= i < |vs| && vs[i].sizeAfter != 0;
      assert vs[i] in vs;
    }
  }

  /**
   * A paper succeeds exactly when its metadata is found, its version
   * number parses, some version extracts a non-empty source, and the
   * reference fetch succeeds.
   */
  lemma SuccessMeaning(paperId: string, env: PaperEnv, maxRetries: nat)
    ensures var o := ExpectedOutcome(paperId, env, maxRetries);
      o.Success? <==>
        && env.metadata.Some?
        && LatestVersion(env.metadata.value.entryId).Some?
        && (exists v :: v in KeptVersions(env, LatestVersion(env.metadata.value.entryId).value) && v.sizeAfter > 0)
        && RetryPolicy(env.replies, maxRetries, 0).success
  {
    if env.metadata.Some? && LatestVersion(env.metadata.value.entryId).Some? {
      SomeSourceIff(KeptVersions(env, LatestVersion(env.metadata.value.entryId).value));
    }
  }

  /**
   * A success reports every version of the paper, non-empty extracted
   * bytes, a peak within the total bytes, at least one revision date, and
   * as many references as the saved reference file has keys.
   */
  lemma SuccessFigures(paperId: string, env: PaperEnv, maxRetries: nat)
    ensures var o := ExpectedOutcome(paperId, env, maxRetries);
      o.Success? ==>
        && o.versions == VersionCount(LatestVersion(env.metadata.value.entryId).value)
        && o.sizeAfter > 0
        && o.peakDisk <= o.sizeBefore + o.sizeAfter
        && o.references == |o.referenceFile|
        && |o.metadata.revisedDates| >= 1
  {
    if env.metadata.Some? && LatestVersion(env.metadata.value.entryId).Some? {
      var latest := LatestVersion(env.metadata.value.entryId).value;
      var dates := VersionDates(env.foundDates, VersionCount(latest), env.today);
      var fs := VersionResults(dates, env.today, env.downloads);
      FetchedPeaks(fs, dates, env.today, env.downloads);
      PeakWithinTotal(Successes(fs));
    }
  }

  /**
   * The checks run in a fixed order: a missing paper is reported before
   * anything else, a paper without source before a reference failure.
   */
  lemma OutcomeOrder(paperId: string, env: PaperEnv, maxRetries: nat)
    ensures env.metadata.None? ==> ExpectedOutcome(paperId, env, maxRetries) == Failure(PaperNotFound)
    ensures env.metadata.Some? && LatestVersion(env.metadata.value.entryId).Some?
            && SumAfter(KeptVersions(env, LatestVersion(env.metadata.value.entryId).value)) == 0
            ==> ExpectedOutcome(paperId, env, maxRetries) == Failure(NoTexSourcePdfOnly)
    ensures env.metadata.Some? && LatestVersion(env.metadata.value.entryId).Some?
            && SumAfter(KeptVersions(env, LatestVersion(env.metadata.value.entryId).value)) > 0
            && !RetryPolicy(env.replies, maxRetries, 0).success
            ==> ExpectedOutcome(paperId, env, maxRetries) == Failure(SemanticScholarError)
    ensures ExpectedOutcome(paperId, env, maxRetries) == Failure(NetworkError)
            <==> env.metadata.Some? && LatestVersion(env.metadata.value.entryId).None?
  {
  }

  /** A paper with no versions (a latest version of 0 or below) has no source. */
  lemma NoVersionsNoSource(paperId: string, env: PaperEnv, maxRetries: nat)
    requires env.metadata.Some?
    requires LatestVersion(env.metadata.value.entryId).Some? && LatestVersion(env.metadata.value.entryId).value <= 0
    ensures ExpectedOutcome(paperId, env, maxRetries) == Failure(NoTexSourcePdfOnly)
  {
    var latest := LatestVersion(env.metadata.value.entryId).value;
    assert VersionResults(VersionDates(env.foundDates, VersionCount(latest), env.today), env.today, env.downloads) == [];
  }

  /**
   * A failed download of one version does not fail the paper: with version
   * 1 failing and version 2 extracting source, the paper still succeeds,
   * reports both versions and only version 2's bytes and date.
   */
  lemma PartialVersionsSucceed(paperId: string, env: PaperEnv, maxRetries: nat, base: string, date1: string, date2: string)
    requires env.metadata.Some? && env.metadata.value.entryId == base + "v" + Decimal(2)
    requires env.foundDates == Some([date1, date2]) && date2 != ""
    requires !(env.downloads(1).Response? && env.downloads(1).status == 200)
    requires env.downloads(2).Response? && env.downloads(2).status == 200
    requires env.downloads(2).payload.SingleGzip? && env.downloads(2).extractedSize > 0
    requires RetryPolicy(env.replies, maxRetries, 0).success
    ensures var o := ExpectedOutcome(paperId, env, maxRetries);
      && o.Success? && o.versions == 2
      && o.sizeBefore == env.downloads(2).bodyLength && o.sizeAfter == env.downloads(2).extractedSize
      && o.metadata.revisedDates == [date2] && o.metadata.submissionDate == date2
  {
    LatestOfVersionedEntry(base, 2);
    var dates := VersionDates(env.foundDates, 2, env.today);
    assert dates == [date1, date2];
    var fs := VersionResults(dates, env.today, env.downloads);
    assert fs[0].None?;
    OnlySecondKept(fs);
    var v := fs[1].value;
    assert v.date == date2 && v.sizeBefore == env.downloads(2).bodyLength && v.sizeAfter > 0;
    assert KeptVersions(env, 2) == [v];
  }

  /** Of two versions, only the second downloaded: the totals and dates are the second's. */
  lemma OnlySecondKept(fs: seq<Option<VersionFetch>>)
    requires |fs| == 2 && fs[0].None? && fs[1].Some?
    ensures var v := fs[1].value;
      && Successes(fs) == [v]
      && SumBefore([v]) == v.sizeBefore && SumAfter([v]) == v.sizeAfter && DatesOf([v]) == [v.date]
  {
    var v := fs[1].value;
    assert Successes(fs[..1]) == [] by { assert fs[..1][..0] == []; }
    assert fs[..2] == fs;
    assert [v][..0] == [];
  }

  /** A paper Semantic Scholar does not know (404) still succeeds, with no references. */
  lemma NotInGraphNoReferences(paperId: string, env: PaperEnv, maxRetries: nat)
    requires env.metadata.Some? && LatestVersion(env.metadata.value.entryId).Some?
    requires SumAfter(KeptVersions(env, LatestVersion(env.metadata.value.entryId).value)) > 0
    requires maxRetries > 0 && env.replies(0).Response? && env.replies(0).status == 404
    ensures var o := ExpectedOutcome(paperId, env, maxRetries);
      o.Success? && o.references == 0 && o.referenceFile == map[]
      && o.metadata.publicationVenue == env.metadata.value.journalRef
  {
    NotInGraphIsSuccess(env.replies, maxRetries);
  }

  // ---------------------------------------------------------------------
  // The scraper object
  // ---------------------------------------------------------------------

  class ArxivScraper {
    /** The limiter every Semantic Scholar request goes through. */
    const limiter: RateLimiter
    /** config['max_retries']. */
    const maxRetries: nat

    /** The limiter waits 0.15 s between requests with an API key and 1.5 s without. */
    constructor (apiKey: string, maxRetries: nat)
      ensures fresh(limiter) && limiter.lastCallTime == 0
      ensures limiter.waitTime == IntervalFor(apiKey)
      ensures this.maxRetries == maxRetries
    {
      limiter := new RateLimiter(IntervalFor(apiKey));
      this.maxRetries := maxRetries;
    }

    /**
     * process_paper: the result is the one `ExpectedOutcome` describes, the
     * Semantic Scholar requests are spaced by the limiter, and no request
     * is made unless the paper has source.
     */
    method ProcessPaper(paperId: string, env: PaperEnv) returns (outcome: Outcome, windows: seq<Window>)
      modifies limiter
      ensures outcome == ExpectedOutcome(paperId, env, maxRetries)
      ensures Spaced(windows, limiter.waitTime)
      ensures outcome.Failure? && outcome.kind != SemanticScholarError ==> windows == []
      ensures windows == [] ==> limiter.lastCallTime == old(limiter.lastCallTime)
      ensures windows != [] ==> windows[0].start >= old(limiter.lastCallTime) + limiter.waitTime
      ensures windows != [] ==> limiter.lastCallTime == windows[|windows| - 1].finish
    {
      windows := [];
      if env.metadata.None? {
        return Failure(PaperNotFound), windows;
      }
      var paper := env.metadata.value;
      var latest := LatestVersion(paper.entryId);
      if latest.None? {
        // int() raised inside the try block
        return Failure(NetworkError), windows;
      }
      outcome, windows := ProcessVersions(paperId, paper, latest.value, env);
    }

    /**
     * The rest of process_paper once the paper and its latest version are
     * known: download every version, then fetch and save the references.
     */
    method ProcessVersions(paperId: string, paper: Paper, latest: int, env: PaperEnv)
      returns (outcome: Outcome, windows: seq<Window>)
      requires env.metadata == Some(paper) && LatestVersion(paper.entryId) == Some(latest)
      modifies limiter
      ensures outcome == ExpectedOutcome(paperId, env, maxRetries)
      ensures Spaced(windows, limiter.waitTime)
      ensures outcome.Failure? && outcome.kind != SemanticScholarError ==> windows == []
      ensures windows == [] ==> limiter.lastCallTime == old(limiter.lastCallTime)
      ensures windows != [] ==> windows[0].start >= old(limiter.lastCallTime) + limiter.waitTime
      ensures windows != [] ==> limiter.lastCallTime == windows[|windows| - 1].finish
    {
      windows := [];
      var numVersions := VersionCount(latest);
      var versionDates := CheckedDates(env.foundDates, numVersions);
      if versionDates == [] {
        versionDates := seq(numVersions, _ => env.today);
      }
      var sizeBefore, sizeAfter, peakDiskUsage, allDates := DownloadVersions(paperId, versionDates, env.today, env.downloads);
      if sizeAfter == 0 {
        return Failure(NoTexSourcePdfOnly), windows;
      }
      outcome, windows := FetchAndSave(paper, numVersions, sizeBefore, sizeAfter, peakDiskUsage, allDates, env);
    }

    /**
     * The end of process_paper once source was extracted: fetch the
     * references, then save the metadata and the references file.
     */
    method FetchAndSave(paper: Paper, numVersions: nat, sizeBefore: nat, sizeAfter: nat, peakDiskUsage: nat,
                        allDates: seq<string>, env: PaperEnv)
      returns (outcome: Outcome, windows: seq<Window>)
      modifies limiter
      ensures var fetched := RetryPolicy(env.replies, maxRetries, 0);
        var refMap := ReferenceMap(fetched.references);
        outcome == if !fetched.success then Failure(SemanticScholarError)
                   else Success(numVersions, sizeBefore, sizeAfter, peakDiskUsage, |refMap|, env.elapsed,
                                SaveMetadata(paper, allDates, fetched.venue), refMap)
      ensures Spaced(windows, limiter.waitTime)
      ensures windows == [] ==> limiter.lastCallTime == old(limiter.lastCallTime)
      ensures windows != [] ==> windows[0].start >= old(limiter.lastCallTime) + limiter.waitTime
      ensures windows != [] ==> limiter.lastCallTime == windows[|windows| - 1].finish
    {
      var fetched, clock;
      fetched, windows, clock := GetReferences(limiter, env.replies, env.callDurations, maxRetries, env.now);
      if !fetched.success {
        return Failure(SemanticScholarError), windows;
      }
      var metadata := SaveMetadata(paper, allDates, fetched.venue);
      var refDict, arxivRefCount := SaveReferences(fetched.references);
      outcome := Success(numVersions, sizeBefore, sizeAfter, peakDiskUsage, arxivRefCount, env.elapsed, metadata, refDict);
    }
  }
}
