/**
 * Identifier helpers of the scraper: the dot/dash folder-name encoding,
 * the generation of a contiguous range of paper ids with 5-digit padding,
 * and the hours/minutes/seconds rendering of a duration.
 */
module Utils {
  import opened Wrappers

  // ---------------------------------------------------------------------
  // Characters and decimal numerals
  // ---------------------------------------------------------------------

  predicate IsDigit(c: char) {
    '0' <= c <= '9'
  }

  predicate AllDigits(s: string) {
    forall i :: 0 <= i < |s| ==> IsDigit(s[i])
  }

  function DigitChar(d: nat): (c: char)
    requires d < 10
    ensures IsDigit(c)
  {
    ('0' as int + d) as char
  }

  function DigitValue(c: char): nat
    requires IsDigit(c)
  {
    c as int - '0' as int
  }

  /** The shortest decimal numeral of `n` (what Python's `str` prints). */
  function Decimal(n: nat): (s: string)
    ensures |s| >= 1 && AllDigits(s)
    ensures n < 10 <==> |s| == 1
    decreases n
  {
    if n < 10 then [DigitChar(n)] else Decimal(n / 10) + [DigitChar(n % 10)]
  }

  /** The value of a string of decimal digits, leading zeros allowed. */
  function DigitsValue(s: string): nat
    requires AllDigits(s)
  {
    if s == [] then 0 else DigitsValue(s[..|s| - 1]) * 10 + DigitValue(s[|s| - 1])
  }

  /**
   * Python's `int(s)` on the inputs this model admits: a non-empty run of
   * decimal digits; anything else raises, which is `None` here.
   */
  function ParseNat(s: string): (r: Option<nat>)
    ensures r.Some? <==> |s| > 0 && AllDigits(s)
  {
    if |s| > 0 && AllDigits(s) then Some(DigitsValue(s)) else None
  }

  lemma {:induction false} DecimalValue(n: nat)
    ensures DigitsValue(Decimal(n)) == n
    decreases n
  {
    if n >= 10 {
      DecimalValue(n / 10);
      var s := Decimal(n);
      assert s[..|s| - 1] == Decimal(n / 10);
    }
  }

  /** Reading back a numeral gives the number it was printed from. */
  lemma ParseDecimal(n: nat)
    ensures ParseNat(Decimal(n)) == Some(n)
  {
    DecimalValue(n);
  }

  function Zeros(k: nat): (z: string)
    ensures |z| == k && forall i :: 0 <= i < k ==> z[i] == '0'
  {
    if k == 0 then [] else Zeros(k - 1) + ['0']
  }

  lemma {:induction false} LeadingZerosIgnored(k: nat, s: string)
    requires AllDigits(s)
    ensures AllDigits(Zeros(k) + s)
    ensures DigitsValue(Zeros(k) + s) == DigitsValue(s)
    decreases |s|, k
  {
    var t := Zeros(k) + s;
    if s == [] {
      assert t == Zeros(k);
      if k > 0 {
        assert t[..|t| - 1] == Zeros(k - 1) + [];
        LeadingZerosIgnored(k - 1, []);
      }
    } else {
      var s' := s[..|s| - 1];
      assert t[..|t| - 1] == Zeros(k) + s';
      LeadingZerosIgnored(k, s');
    }
  }

  /** `f"{n:0{width}d}"`: the numeral of `n`, left-padded with zeros to at least `width` characters. */
  function ZeroPad(n: nat, width: nat): (s: string)
    ensures |s| == if |Decimal(n)| < width then width else |Decimal(n)|
    ensures AllDigits(s)
    ensures ParseNat(s) == Some(n)
  {
    var d := Decimal(n);
    var k := if |d| < width then width - |d| else 0;
    LeadingZerosIgnored(k, d);
    DecimalValue(n);
    Zeros(k) + d
  }

  // ---------------------------------------------------------------------
  // Splitting strings (Python's str.split on one character)
  // ---------------------------------------------------------------------

  /** `s.split(sep)`: the maximal runs of `s` between occurrences of `sep`. */
  function SplitOn(s: string, sep: char): (parts: seq<string>)
    ensures |parts| >= 1
    ensures forall i :: 0 <= i < |parts| ==> sep !in parts[i]
    ensures sep !in s ==> parts == [s]
  {
    if s == [] then [""]
    else if s[0] == sep then [""] + SplitOn(s[1..], sep)
    else
      var rest := SplitOn(s[1..], sep);
      assert sep !in s ==> [s[0]] + rest[0] == s;
      [[s[0]] + rest[0]] + rest[1..]
  }

  lemma {:induction false} SplitOnJoin(a: string, b: string, sep: char)
    requires sep !in a
    ensures SplitOn(a + [sep] + b, sep) == [a] + SplitOn(b, sep)
    decreases |a|
  {
    if a == [] {
      assert a + [sep] + b == [sep] + b;
      assert ([sep] + b)[1..] == b;
    } else {
      assert (a + [sep] + b)[1..] == a[1..] + [sep] + b;
      SplitOnJoin(a[1..], b, sep);
      assert [a[0]] + a[1..] == a;
    }
  }

  /** The text after the last `c`, or all of `s` when `c` does not occur: `s.split(c)[-1]`. */
  function AfterLast(s: string, c: char): (r: string)
    ensures c !in r
    ensures c !in s ==> r == s
  {
    if s == [] then []
    else if s[|s| - 1] == c then []
    else AfterLast(s[..|s| - 1], c) + [s[|s| - 1]]
  }

  /** The text before the last `c`: `s.rsplit(c, 1)[0]` when `c` occurs in `s`. */
  function BeforeLast(s: string, c: char): string
  {
    if s == [] then []
    else if s[|s| - 1] == c then s[..|s| - 1]
    else BeforeLast(s[..|s| - 1], c)
  }

  /** Splitting `base + [c] + tail` at its last `c` gives back `base` and `tail`, whatever `base` holds. */
  lemma {:induction false} SplitAtLast(base: string, c: char, tail: string)
    requires c !in tail
    ensures AfterLast(base + [c] + tail, c) == tail
    ensures BeforeLast(base + [c] + tail, c) == base
    decreases |tail|
  {
    var s := base + [c] + tail;
    if tail == [] {
      assert s[..|s| - 1] == base;
    } else {
      var t' := tail[..|tail| - 1];
      assert s[..|s| - 1] == base + [c] + t';
      SplitAtLast(base, c, t');
      assert t' + [tail[|tail| - 1]] == tail;
    }
  }

  // ---------------------------------------------------------------------
  // Folder names (utils.py: arxiv_id_to_folder_name, folder_name_to_arxiv_id)
  // ---------------------------------------------------------------------

  /** `s.replace(from, to)` for single characters. */
  function ReplaceChar(s: string, from: char, to: char): (r: string)
    ensures |r| == |s|
    ensures forall i :: 0 <= i < |s| ==> r[i] == (if s[i] == from then to else s[i])
  {
    if s == [] then [] else [if s[0] == from then to else s[0]] + ReplaceChar(s[1..], from, to)
  }

  /** The filesystem-safe form of an arXiv id: every '.' becomes '-', nothing else changes. */
  function ToFolderName(arxivId: string): (r: string)
    ensures |r| == |arxivId| && '.' !in r
    ensures forall i :: 0 <= i < |r| ==> r[i] == (if arxivId[i] == '.' then '-' else arxivId[i])
  {
    ReplaceChar(arxivId, '.', '-')
  }

  /** The canonical form of a folder name: every '-' becomes '.', nothing else changes. */
  function FromFolderName(folderName: string): (r: string)
    ensures |r| == |folderName| && '-' !in r
    ensures forall i :: 0 <= i < |r| ==> r[i] == (if folderName[i] == '-' then '.' else folderName[i])
  {
    ReplaceChar(folderName, '-', '.')
  }

  /** An id without dashes survives the trip to a folder name and back. */
  lemma FolderNameRoundTrip(arxivId: string)
    requires '-' !in arxivId
    ensures FromFolderName(ToFolderName(arxivId)) == arxivId
  {
    var r := FromFolderName(ToFolderName(arxivId));
    assert forall i :: 0 <= i < |r| ==> r[i] == arxivId[i];
  }

  /** Encoding, decoding and encoding again is the same as encoding once, for every id. */
  lemma FolderNameStable(arxivId: string)
    ensures ToFolderName(FromFolderName(ToFolderName(arxivId))) == ToFolderName(arxivId)
  {
    var a, b := ToFolderName(FromFolderName(ToFolderName(arxivId))), ToFolderName(arxivId);
    assert forall i :: 0 <= i < |a| ==> a[i] == b[i];
  }

  lemma ReplaceOne(a: string, b: string, from: char, to: char)
    requires from !in a && from !in b
    ensures ReplaceChar(a + [from] + b, from, to) == a + [to] + b
  {
    var r, t := ReplaceChar(a + [from] + b, from, to), a + [to] + b;
    assert forall i :: 0 <= i < |r| ==> r[i] == t[i];
  }

  lemma FolderNameExample()
    ensures ToFolderName("2311.05222") == "2311-05222"
    ensures FromFolderName("2311-05222") == "2311.05222"
  {
    assert "2311.05222" == "2311" + ['.'] + "05222";
    assert "2311-05222" == "2311" + ['-'] + "05222";
    ReplaceOne("2311", "05222", '.', '-');
    ReplaceOne("2311", "05222", '-', '.');
  }

  // ---------------------------------------------------------------------
  // Paper id ranges (utils.py: generate_paper_ids)
  // ---------------------------------------------------------------------

  /** The id `prefix.NNNNN` with the sequence number zero-padded to at least five digits. */
  function PaperId(prefix: string, num: nat): string
  {
    prefix + "." + ZeroPad(num, 5)
  }

  /** A generated id splits back into its prefix and a field that parses to its number. */
  lemma PaperIdParses(prefix: string, num: nat)
    requires '.' !in prefix
    ensures SplitOn(PaperId(prefix, num), '.') == [prefix, ZeroPad(num, 5)]
    ensures ParseNat(SplitOn(PaperId(prefix, num), '.')[1]) == Some(num)
  {
    var z := ZeroPad(num, 5);
    assert '.' !in z by {
      forall i | 0 <= i < |z| ensures z[i] != '.' { assert IsDigit(z[i]); }
    }
    SplitOnJoin(prefix, z, '.');
    assert PaperId(prefix, num) == prefix + ['.'] + z;
  }

  /** Different numbers give different ids. */
  lemma PaperIdInjective(prefix: string, m: nat, n: nat)
    requires '.' !in prefix && m != n
    ensures PaperId(prefix, m) != PaperId(prefix, n)
  {
    PaperIdParses(prefix, m);
    PaperIdParses(prefix, n);
  }

  /** The bounds `generate_paper_ids` reads: start's prefix, start's number, end's number; None where Python raises. */
  function RangeBounds(startId: string, endId: string): Option<(string, nat, nat)>
  {
    var startParts := SplitOn(startId, '.');
    var endParts := SplitOn(endId, '.');
    if |startParts| < 2 || |endParts| < 2 then None
    else
      match (ParseNat(startParts[1]), ParseNat(endParts[1]))
      case (Some(lo), Some(hi)) => Some((startParts[0], lo, hi))
      case _ => None
  }

  /** The ids `generate_paper_ids(startId, endId)` returns, or None when it raises. */
  function PaperIdRange(startId: string, endId: string): (r: Option<seq<string>>)
    ensures r.Some? <==> RangeBounds(startId, endId).Some?
    ensures r.Some? ==> var b := RangeBounds(startId, endId).value;
      |r.value| == (if b.2 >= b.1 then b.2 - b.1 + 1 else 0)
  {
    match RangeBounds(startId, endId)
    case None => None
    case Some(b) =>
      var n: nat := if b.2 >= b.1 then b.2 - b.1 + 1 else 0;
      Some(seq(n, i requires 0 <= i => PaperId(b.0, b.1 + i)))
  }

  /**
   * generate_paper_ids: one id per number from start's number to end's
   * number inclusive, in increasing order, all carrying start's prefix.
   */
  method GeneratePaperIds(startId: string, endId: string) returns (ids: Option<seq<string>>)
    ensures ids == PaperIdRange(startId, endId)
    ensures ids.Some? ==> var (prefix, lo, hi) := RangeBounds(startId, endId).value;
      && |ids.value| == (if hi >= lo then hi - lo + 1 else 0)
      && forall i :: 0 <= i < |ids.value| ==> ids.value[i] == PaperId(prefix, lo + i)
  {
    var startParts := SplitOn(startId, '.');
    var endParts := SplitOn(endId, '.');
    if |startParts| < 2 || |endParts| < 2 {
      return None;
    }
    var prefix := startParts[0];
    var startNum := ParseNat(startParts[1]);
    var endNum := ParseNat(endParts[1]);
    if startNum.None? || endNum.None? {
      return None;
    }
    var lo, hi := startNum.value, endNum.value;
    var paperIds: seq<string> := [];
    var num := lo;
    while num <= hi
      invariant lo <= num <= (if hi >= lo then hi + 1 else lo)
      invariant |paperIds| == num - lo
      invariant forall i :: 0 <= i < |paperIds| ==> paperIds[i] == PaperId(prefix, lo + i)
    {
      paperIds := paperIds + [PaperId(prefix, num)];
      num := num + 1;
    }
    assert RangeBounds(startId, endId) == Some((prefix, lo, hi));
    var expected := PaperIdRange(startId, endId).value;
    assert |expected| == |paperIds|;
    assert forall i :: 0 <= i < |expected| ==> expected[i] == paperIds[i];
    assert expected == paperIds;
    ids := Some(paperIds);
  }

  /** Only the number of the end id matters: its prefix is never read. */
  lemma EndPrefixIgnored(startId: string, endPrefix: string, endField: string)
    requires '.' !in endPrefix
    ensures PaperIdRange(startId, endPrefix + "." + endField) == PaperIdRange(startId, "2311." + endField)
  {
    SplitOnJoin(endPrefix, endField, '.');
    SplitOnJoin("2311", endField, '.');
    assert endPrefix + "." + endField == endPrefix + ['.'] + endField;
    assert "2311." + endField == "2311" + ['.'] + endField;
  }

  /** The number `int(id.split('.')[1])` reads from an id, or None where that raises. */
  function IdNumber(id: string): Option<nat> {
    var parts := SplitOn(id, '.');
    if |parts| < 2 then None else ParseNat(parts[1])
  }

  /** Every generated id carries a strictly larger number than the ones before it. */
  lemma RangeIncreasing(startId: string, endId: string, i: nat, j: nat)
    requires PaperIdRange(startId, endId).Some?
    requires '.' !in RangeBounds(startId, endId).value.0
    requires i < j < |PaperIdRange(startId, endId).value|
    ensures var ids := PaperIdRange(startId, endId).value;
      && IdNumber(ids[i]).Some? && IdNumber(ids[j]).Some?
      && IdNumber(ids[i]).value < IdNumber(ids[j]).value
      && ids[i] != ids[j]
  {
    var b := RangeBounds(startId, endId).value;
    RangeElement(startId, endId, i);
    RangeElement(startId, endId, j);
    IdsOrdered(b.0, b.1 + i, b.1 + j);
    var ids := PaperIdRange(startId, endId).value;
    assert IdNumber(ids[i]) == Some(b.1 + i) && IdNumber(ids[j]) == Some(b.1 + j);
  }

  /** The k-th generated id carries start's prefix and start's number plus k. */
  lemma RangeElement(startId: string, endId: string, k: nat)
    requires PaperIdRange(startId, endId).Some? && k < |PaperIdRange(startId, endId).value|
    ensures RangeBounds(startId, endId).Some?
    ensures var b := RangeBounds(startId, endId).value;
      PaperIdRange(startId, endId).value[k] == PaperId(b.0, b.1 + k)
  {
  }

  /** Of two ids with the same prefix, the smaller number is read back smaller, and the ids differ. */
  lemma IdsOrdered(prefix: string, m: nat, n: nat)
    requires '.' !in prefix && m < n
    ensures IdNumber(PaperId(prefix, m)) == Some(m) && IdNumber(PaperId(prefix, n)) == Some(n)
    ensures PaperId(prefix, m) != PaperId(prefix, n)
  {
    PaperIdParses(prefix, m);
    PaperIdParses(prefix, n);
  }

  /** The padded numerals of 5222..5225. */
  lemma PadExample(n: nat, d: string)
    requires 5222 <= n <= 5225 && d == [DigitChar(5), DigitChar(2), DigitChar(2), DigitChar(n - 5220)]
    ensures ZeroPad(n, 5) == "0" + d
    ensures PaperId("2311", n) == "2311.0" + d
  {
    assert Decimal(n / 1000) == [DigitChar(5)];
    assert Decimal(n / 100) == [DigitChar(5), DigitChar(2)];
    assert Decimal(n / 10) == [DigitChar(5), DigitChar(2), DigitChar(2)];
    assert Decimal(n) == d;
    assert Zeros(1) == "0";
  }

  lemma ParseExample(field: string, n: nat)
    requires 5222 <= n <= 5225 && field == "0" + [DigitChar(5), DigitChar(2), DigitChar(2), DigitChar(n - 5220)]
    ensures ParseNat(field) == Some(n)
  {
    PadExample(n, field[1..]);
    assert ZeroPad(n, 5) == field;
  }

  lemma SplitTwoFields(prefix: string, field: string)
    requires '.' !in prefix && '.' !in field
    ensures SplitOn(prefix + "." + field, '.') == [prefix, field]
  {
    SplitOnJoin(prefix, field, '.');
    assert prefix + "." + field == prefix + ['.'] + field;
  }

  /** The bounds of two well-formed ids are start's prefix and the two parsed numbers. */
  lemma BoundsOfIds(prefix: string, startField: string, endPrefix: string, endField: string, lo: nat, hi: nat)
    requires '.' !in prefix && '.' !in startField && '.' !in endPrefix && '.' !in endField
    requires ParseNat(startField) == Some(lo) && ParseNat(endField) == Some(hi)
    ensures RangeBounds(prefix + "." + startField, endPrefix + "." + endField) == Some((prefix, lo, hi))
  {
    SplitTwoFields(prefix, startField);
    SplitTwoFields(endPrefix, endField);
  }

  lemma RangeBoundsExample()
    ensures RangeBounds("2311.05222", "2311.05225") == Some(("2311", 5222, 5225))
  {
    var p, a, b := "2311", "05222", "05225";
    assert '.' !in p && '.' !in a && '.' !in b;
    ParseExample(a, 5222);
    ParseExample(b, 5225);
    BoundsOfIds(p, a, p, b, 5222, 5225);
    assert p + "." + a == "2311.05222";
    assert p + "." + b == "2311.05225";
  }

  /** The example of the docstring: 2311.05222 to 2311.05225 gives four ids. */
  lemma RangeExample()
    ensures PaperIdRange("2311.05222", "2311.05225") ==
      Some(["2311.05222", "2311.05223", "2311.05224", "2311.05225"])
  {
    RangeBoundsExample();
    RangeOfBounds("2311.05222", "2311.05225", "2311", 5222, 5225, ["2311.05222", "2311.05223", "2311.05224", "2311.05225"]);
  }

  lemma RangeOfBounds(startId: string, endId: string, prefix: string, lo: nat, hi: nat, ids: seq<string>)
    requires RangeBounds(startId, endId) == Some((prefix, lo, hi))
    requires prefix == "2311" && lo == 5222 && hi == 5225
    requires ids == ["2311.05222", "2311.05223", "2311.05224", "2311.05225"]
    ensures PaperIdRange(startId, endId) == Some(ids)
  {
    var r := PaperIdRange(startId, endId).value;
    assert |r| == 4;
    forall k | 0 <= k < 4 ensures r[k] == ids[k] {
      IdExample(k);
    }
    assert r == ids;
  }

  lemma IdExample(k: nat)
    requires k < 4
    ensures PaperId("2311", 5222 + k) == ["2311.05222", "2311.05223", "2311.05224", "2311.05225"][k]
  {
    var d := [DigitChar(5), DigitChar(2), DigitChar(2), DigitChar(2 + k)];
    PadExample(5222 + k, d);
    assert DigitChar(5) == '5' && DigitChar(2) == '2';
    assert DigitChar(2 + k) == ['2', '3', '4', '5'][k];
  }

  // ---------------------------------------------------------------------
  // Durations (utils.py: format_time)
  // ---------------------------------------------------------------------

  datatype Clock = Clock(hours: nat, minutes: nat, seconds: nat)

  /** Whole seconds split into hours, minutes below 60 and seconds below 60 that add back up to the input. */
  function SplitSeconds(total: nat): (c: Clock)
    ensures c.minutes < 60 && c.seconds < 60
    ensures 3600 * c.hours + 60 * c.minutes + c.seconds == total
  {
    Clock(total / 3600, (total % 3600) / 60, total % 60)
  }

  /** format_time: "Hh Mm Ss", dropping the leading hours, then minutes, while they are zero. */
  function FormatTime(total: nat): string
  {
    var c := SplitSeconds(total);
    if c.hours > 0 then Decimal(c.hours) + "h " + Decimal(c.minutes) + "m " + Decimal(c.seconds) + "s"
    else if c.minutes > 0 then Decimal(c.minutes) + "m " + Decimal(c.seconds) + "s"
    else Decimal(c.seconds) + "s"
  }

  lemma DigitsLackLetter(s: string, c: char)
    requires AllDigits(s) && !IsDigit(c)
    ensures c !in s
  {
    forall i | 0 <= i < |s| ensures s[i] != c {
      assert IsDigit(s[i]);
    }
  }

  /**
   * The hours unit is shown exactly for durations of an hour or more, the
   * minutes unit exactly for durations of a minute or more, and the text
   * always ends with the seconds.
   */
  lemma FormatTimeUnits(total: nat)
    ensures 'h' in FormatTime(total) <==> total >= 3600
    ensures 'm' in FormatTime(total) <==> total >= 60
    ensures var c := SplitSeconds(total); var r := FormatTime(total);
      |r| > |Decimal(c.seconds)| && r[|r| - |Decimal(c.seconds)| - 1..] == Decimal(c.seconds) + "s"
  {
    var c := SplitSeconds(total);
    var h, m, s := Decimal(c.hours), Decimal(c.minutes), Decimal(c.seconds);
    DigitsLackLetter(h, 'h'); DigitsLackLetter(m, 'h'); DigitsLackLetter(s, 'h');
    DigitsLackLetter(h, 'm'); DigitsLackLetter(m, 'm'); DigitsLackLetter(s, 'm');
    var r := FormatTime(total);
    if c.hours > 0 {
      assert r == h + "h " + m + "m " + s + "s";
      assert r[|h|] == 'h';
      assert r[|h| + 2 + |m|] == 'm';
    } else if c.minutes > 0 {
      assert r == m + "m " + s + "s";
      assert r[|m|] == 'm';
      assert 'h' !in r by {
        forall i | 0 <= i < |r| ensures r[i] != 'h' {
          if i < |m| { assert r[i] == m[i]; } else if i >= |m| + 2 && i < |m| + 2 + |s| { assert r[i] == s[i - |m| - 2]; }
        }
      }
    } else {
      assert r == s + "s";
      assert 'h' !in r && 'm' !in r by {
        forall i | 0 <= i < |r| ensures r[i] != 'h' && r[i] != 'm' {
          if i < |s| { assert r[i] == s[i]; }
        }
      }
    }
  }
}
