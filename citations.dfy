/**
 * The Semantic Scholar client of the scraper: the rate-limited retry loop
 * that fetches a paper's references and venue (ArxivScraper._get_references)
 * and the reference dictionary saved from them (ArxivScraper._save_references).
 *
 * Each attempt's answer is an input: `replies(k)` is what attempt k gets
 * back, and `durations(k)` is how long that request takes on the clock.
 */
module Citations {
  import opened Wrappers
  import opened Utils
  import opened RateLimiting

  /** One entry of the `references` list, with absent fields read as empty. */
  datatype Reference = Reference(
    externalIds: map<string, string>,
    title: string,
    authors: seq<string>,
    publicationDate: string,
    paperId: string)

  /** The answer to one request: an HTTP status with the decoded body, or a transport error. */
  datatype Reply =
    | Response(status: int, references: seq<Reference>, venue: string)
    | TransportError

  /** The triple `_get_references` returns, with the number of requests it made. */
  datatype Fetched = Fetched(references: seq<Reference>, venue: string, success: bool, attempts: nat)

  /** A reply that ends the loop whatever the attempt: 200 and 404. */
  predicate IsTerminal(reply: Reply) {
    reply.Response? && (reply.status == 200 || reply.status == 404)
  }

  /** The sleep after attempt `attempt`, in ms: 30 s times the attempt number on 429, 2 s before retrying another status. */
  function Backoff(reply: Reply, attempt: nat, maxRetries: nat): (ms: nat)
    ensures IsTerminal(reply) || reply.TransportError? ==> ms == 0
    ensures reply.Response? && reply.status == 429 ==> ms >= 30000 && ms % 30000 == 0
  {
    match reply
    case TransportError => 0
    case Response(status, _, _) =>
      if status == 200 || status == 404 then 0
      else if status == 429 then 30000 * (attempt + 1)
      else if attempt < maxRetries - 1 then 2000
      else 0
  }

  /** The outcome of the retry loop from attempt `attempt` on. */
  function RetryPolicy(replies: nat -> Reply, maxRetries: nat, attempt: nat): (r: Fetched)
    requires attempt <= maxRetries
    ensures attempt < maxRetries ==> attempt < r.attempts <= maxRetries
    ensures !r.success ==> r.references == [] && r.venue == ""
    decreases maxRetries - attempt
  {
    if attempt == maxRetries then Fetched([], "", false, maxRetries)
    else match replies(attempt)
      case TransportError =>
        if attempt < maxRetries - 1 then RetryPolicy(replies, maxRetries, attempt + 1)
        else Fetched([], "", false, attempt + 1)
      case Response(status, refs, venue) =>
        if status == 200 then Fetched(refs, venue, true, attempt + 1)
        else if status == 429 then RetryPolicy(replies, maxRetries, attempt + 1)
        else if status == 404 then Fetched([], "", true, attempt + 1)
        else if attempt < maxRetries - 1 then RetryPolicy(replies, maxRetries, attempt + 1)
        else Fetched([], "", false, attempt + 1)
  }

  /** The first terminal reply at or after `from` sits at `k`. */
  predicate FirstTerminalAt(replies: nat -> Reply, from: nat, k: nat) {
    from <= k && IsTerminal(replies(k)) && forall j :: from <= j < k ==> !IsTerminal(replies(j))
  }

  /**
   * The loop makes between one and `maxRetries` requests (none when
   * `maxRetries` is 0); it succeeds exactly when some attempt within the
   * budget meets a 200 or 404 before any other terminal reply, and then it
   * stops at that attempt and returns that reply's references and venue
   * (both empty for 404). Every failure returns no references and no venue.
   */
  lemma {:induction false} RetryPolicyMeaning(replies: nat -> Reply, maxRetries: nat, attempt: nat)
    requires attempt <= maxRetries
    ensures var r := RetryPolicy(replies, maxRetries, attempt);
      && r.attempts <= maxRetries
      && (attempt < maxRetries ==> attempt < r.attempts)
      && (r.success <==> exists k :: attempt <= k < maxRetries && FirstTerminalAt(replies, attempt, k))
      && (r.success ==>
            (FirstTerminalAt(replies, attempt, r.attempts - 1)
             && var reply := replies(r.attempts - 1);
                if reply.status == 200 then r.references == reply.references && r.venue == reply.venue
                else r.references == [] && r.venue == ""))
      && (!r.success ==> r.references == [] && r.venue == "")
    decreases maxRetries - attempt
  {
    if attempt < maxRetries {
      var reply := replies(attempt);
      if !IsTerminal(reply) && attempt < maxRetries - 1 {
        RetryPolicyMeaning(replies, maxRetries, attempt + 1);
        var r := RetryPolicy(replies, maxRetries, attempt);
        assert r == RetryPolicy(replies, maxRetries, attempt + 1);
        if exists k :: attempt <= k < maxRetries && FirstTerminalAt(replies, attempt, k) {
          var k :| attempt <= k < maxRetries && FirstTerminalAt(replies, attempt, k);
          assert FirstTerminalAt(replies, attempt + 1, k);
        }
        var next := attempt + 1;
        if exists k :: next <= k < maxRetries && FirstTerminalAt(replies, next, k) {
          var k :| next <= k < maxRetries && FirstTerminalAt(replies, next, k);
          assert FirstTerminalAt(replies, attempt, k);
        }
      } else if !IsTerminal(reply) {
        forall k | attempt <= k < maxRetries ensures !FirstTerminalAt(replies, attempt, k) {
          assert k == attempt;
        }
      } else {
        assert FirstTerminalAt(replies, attempt, attempt);
      }
    }
  }

  /** A 404 on the first attempt is a success with no references and no venue. */
  lemma NotInGraphIsSuccess(replies: nat -> Reply, maxRetries: nat)
    requires maxRetries > 0 && replies(0).Response? && replies(0).status == 404
    ensures RetryPolicy(replies, maxRetries, 0) == Fetched([], "", true, 1)
  {
  }

  /** When every request hits 429 the budget is spent and the fetch fails. */
  lemma AlwaysRateLimitedFails(replies: nat -> Reply, maxRetries: nat)
    requires forall k :: replies(k).Response? && replies(k).status == 429
    ensures RetryPolicy(replies, maxRetries, 0) == Fetched([], "", false, maxRetries)
  {
    RetryPolicyMeaning(replies, maxRetries, 0);
    assert !RetryPolicy(replies, maxRetries, 0).success by {
      forall k | 0 <= k < maxRetries ensures !FirstTerminalAt(replies, 0, k) {
        assert !IsTerminal(replies(k));
      }
    }
    AllRetryableUsesBudget(replies, maxRetries, 0);
  }

  lemma {:induction false} AllRetryableUsesBudget(replies: nat -> Reply, maxRetries: nat, attempt: nat)
    requires attempt <= maxRetries
    requires forall k :: replies(k).Response? && replies(k).status == 429
    ensures RetryPolicy(replies, maxRetries, attempt).attempts == maxRetries
    decreases maxRetries - attempt
  {
    if attempt < maxRetries {
      assert replies(attempt).Response? && replies(attempt).status == 429;
      AllRetryableUsesBudget(replies, maxRetries, attempt + 1);
    }
  }

  /** One request: when it started and finished, and how long the loop slept after it. */
  datatype Window = Window(start: int, finish: int, backoff: nat)

  /**
   * Each request starts at least `wait` after the previous one finished,
   * and not before the backoff sleep that followed it is over.
   */
  predicate Spaced(ws: seq<Window>, wait: nat)
  {
    |ws| <= 1 ||
      (Spaced(ws[..|ws| - 1], wait)
       && ws[|ws| - 1].start >= ws[|ws| - 2].finish + wait
       && ws[|ws| - 1].start >= ws[|ws| - 2].finish + ws[|ws| - 2].backoff)
  }

  /**
   * Request k took `durations(k)` and was followed by the sleep `Backoff`
   * prescribes for reply k.
   */
  predicate Timed(ws: seq<Window>, durations: nat -> nat, replies: nat -> Reply, maxRetries: nat)
  {
    |ws| == 0 ||
      (Timed(ws[..|ws| - 1], durations, replies, maxRetries)
       && ws[|ws| - 1].finish == ws[|ws| - 1].start + durations(|ws| - 1)
       && ws[|ws| - 1].backoff == Backoff(replies(|ws| - 1), |ws| - 1, maxRetries))
  }

  /** The timing of any one request. */
  lemma {:induction false} TimedAt(ws: seq<Window>, durations: nat -> nat, replies: nat -> Reply, maxRetries: nat, k: nat)
    requires Timed(ws, durations, replies, maxRetries) && k < |ws|
    ensures ws[k].finish == ws[k].start + durations(k)
    ensures ws[k].backoff == Backoff(replies(k), k, maxRetries)
    decreases |ws|
  {
    if k < |ws| - 1 {
      TimedAt(ws[..|ws| - 1], durations, replies, maxRetries, k);
    }
  }

  /** Spacing between any two consecutive requests. */
  lemma {:induction false} SpacedAt(ws: seq<Window>, wait: nat, k: nat)
    requires Spaced(ws, wait) && 0 < k < |ws|
    ensures ws[k].start >= ws[k - 1].finish + wait
    ensures ws[k].start >= ws[k - 1].finish + ws[k - 1].backoff
    decreases |ws|
  {
    if k < |ws| - 1 {
      SpacedAt(ws[..|ws| - 1], wait, k);
    }
  }

  /**
   * _get_references: up to `maxRetries` requests, each made through the
   * limiter. 200 returns the references and venue; 404 returns none but
   * succeeds; 429 sleeps 30 s times the attempt number and retries; any
   * other status (after 2 s) or a transport error retries, except on the
   * last attempt, which fails. Every request starts at least the limiter's
   * interval after the previous one finished, backoff sleeps included.
   */
  method GetReferences(limiter: RateLimiter, replies: nat -> Reply, durations: nat -> nat, maxRetries: nat, now: int)
    returns (r: Fetched, windows: seq<Window>, clock: int)
    modifies limiter
    ensures r == RetryPolicy(replies, maxRetries, 0)
    ensures |windows| == r.attempts
    ensures Timed(windows, durations, replies, maxRetries)
    ensures |windows| > 0 ==> windows[0].start >= old(limiter.lastCallTime) + limiter.waitTime && windows[0].start >= now
    ensures Spaced(windows, limiter.waitTime)
    ensures |windows| == 0 ==> limiter.lastCallTime == old(limiter.lastCallTime) && clock == now
    ensures |windows| > 0 ==> limiter.lastCallTime == windows[|windows| - 1].finish && clock >= limiter.lastCallTime
  {
    var attempt := 0;
    clock := now;
    windows := [];
    r := Fetched([], "", false, maxRetries);
    while attempt < maxRetries
      invariant attempt <= maxRetries
      invariant RetryPolicy(replies, maxRetries, attempt) == RetryPolicy(replies, maxRetries, 0)
      invariant |windows| == attempt
      invariant Timed(windows, durations, replies, maxRetries)
      invariant |windows| > 0 ==> windows[0].start >= old(limiter.lastCallTime) + limiter.waitTime && windows[0].start >= now
      invariant Spaced(windows, limiter.waitTime)
      invariant |windows| == 0 ==> limiter.lastCallTime == old(limiter.lastCallTime) && clock == now
      invariant |windows| > 0 ==>
        (limiter.lastCallTime == windows[|windows| - 1].finish
         && clock == limiter.lastCallTime + windows[|windows| - 1].backoff)
    {
      var reply, start, finish := limiter.Execute(clock, replies(attempt), durations(attempt));
      // 429 sleeps 30 s times the attempt number; another non-terminal status sleeps 2 s unless it is the last attempt
      var backoff := Backoff(reply, attempt, maxRetries);
      ghost var before := windows;
      windows := windows + [Window(start, finish, backoff)];
      assert windows[..|windows| - 1] == before;
      assert Spaced(windows, limiter.waitTime);
      assert Timed(windows, durations, replies, maxRetries);
      clock := finish + backoff;
      var isLast := attempt == maxRetries - 1;
      if reply.Response? && reply.status == 200 {
        r := Fetched(reply.references, reply.venue, true, attempt + 1);
        break;
      } else if reply.Response? && reply.status == 404 {
        r := Fetched([], "", true, attempt + 1);
        break;
      } else if isLast && !(reply.Response? && reply.status == 429) {
        // a transport error or another status on the last attempt
        r := Fetched([], "", false, attempt + 1);
        break;
      }
      attempt := attempt + 1;
    }
  }

  // ---------------------------------------------------------------------
  // The references file (ArxivScraper._save_references)
  // ---------------------------------------------------------------------

  /** One saved reference. */
  datatype RefEntry = RefEntry(paperTitle: string, authors: seq<string>, submissionDate: string, semanticScholarId: string)

  /** The folder-name key of a reference that has an arXiv id, if it has one. */
  function ArxivKey(ref: Reference): Option<string> {
    if "ArXiv" in ref.externalIds then Some(ToFolderName(ref.externalIds["ArXiv"])) else None
  }

  function EntryOf(ref: Reference): RefEntry {
    RefEntry(ref.title, ref.authors, ref.publicationDate, ref.paperId)
  }

  /** The dictionary built from `refs` in order, later entries overwriting earlier ones with the same key. */
  function ReferenceMap(refs: seq<Reference>): (m: map<string, RefEntry>)
    ensures |m| <= |refs|
  {
    if refs == [] then map[]
    else
      var last := refs[|refs| - 1];
      var m := ReferenceMap(refs[..|refs| - 1]);
      match ArxivKey(last)
      case None => m
      case Some(key) => m[key := EntryOf(last)]
  }

  /** The keys are exactly the folder names of the references with an arXiv id. */
  lemma {:induction false} ReferenceMapKeys(refs: seq<Reference>, key: string)
    ensures key in ReferenceMap(refs) <==> exists i :: 0 <= i < |refs| && ArxivKey(refs[i]) == Some(key)
  {
    if refs != [] {
      var init := refs[..|refs| - 1];
      ReferenceMapKeys(init, key);
      if exists i :: 0 <= i < |refs| && ArxivKey(refs[i]) == Some(key) {
        var i :| 0 <= i < |refs| && ArxivKey(refs[i]) == Some(key);
        if i < |init| { assert init[i] == refs[i]; }
      }
      if exists i :: 0 <= i < |init| && ArxivKey(init[i]) == Some(key) {
        var i :| 0 <= i < |init| && ArxivKey(init[i]) == Some(key);
        assert init[i] == refs[i];
      }
    }
  }

  /** Each key holds the entry of the LAST reference with that key. */
  lemma {:induction false} ReferenceMapLastWins(refs: seq<Reference>, key: string, i: nat)
    requires i < |refs| && ArxivKey(refs[i]) == Some(key)
    requires forall j :: i < j < |refs| ==> ArxivKey(refs[j]) != Some(key)
    ensures key in ReferenceMap(refs) && ReferenceMap(refs)[key] == EntryOf(refs[i])
  {
    var init := refs[..|refs| - 1];
    if i < |init| {
      assert init[i] == refs[i];
      forall j | i < j < |init| ensures ArxivKey(init[j]) != Some(key) {
        assert init[j] == refs[j];
      }
      ReferenceMapLastWins(init, key, i);
    }
  }

  /** No key of the saved dictionary contains a '.'. */
  lemma {:induction false} ReferenceKeysHaveNoDot(refs: seq<Reference>)
    ensures forall key :: key in ReferenceMap(refs) ==> '.' !in key
  {
    if refs != [] {
      ReferenceKeysHaveNoDot(refs[..|refs| - 1]);
    }
  }

  /** The number of references that have an arXiv id. */
  function CountWithArxiv(refs: seq<Reference>): nat {
    if refs == [] then 0
    else CountWithArxiv(refs[..|refs| - 1]) + (if ArxivKey(refs[|refs| - 1]).Some? then 1 else 0)
  }

  /** Duplicates collapse: there are at most as many keys as references with an arXiv id. */
  lemma {:induction false} ReferenceMapSize(refs: seq<Reference>)
    ensures |ReferenceMap(refs)| <= CountWithArxiv(refs) <= |refs|
  {
    if refs != [] {
      ReferenceMapSize(refs[..|refs| - 1]);
    }
  }

  /**
   * _save_references: keep the references with an arXiv id, key each by
   * the folder form of that id, and return the dictionary with its size.
   */
  method SaveReferences(refs: seq<Reference>) returns (refDict: map<string, RefEntry>, count: nat)
    ensures refDict == ReferenceMap(refs)
    ensures count == |refDict|
  {
    refDict := map[];
    for k := 0 to |refs|
      invariant refDict == ReferenceMap(refs[..k])
    {
      var ref := refs[k];
      assert refs[..k + 1][..k] == refs[..k];
      if "ArXiv" in ref.externalIds {
        var folderName := ToFolderName(ref.externalIds["ArXiv"]);
        refDict := refDict[folderName := RefEntry(ref.title, ref.authors, ref.publicationDate, ref.paperId)];
      }
    }
    assert refs[..|refs|] == refs;
    count := |refDict|;
  }
}
