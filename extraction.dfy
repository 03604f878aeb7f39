/**
 * Downloading one version's source archive and extracting the TeX and
 * BibTeX files from it (ArxivScraper._download_and_extract_version and
 * ArxivScraper._extract_filtered).
 *
 * The HTTP response, the gzip/tar decoding and the size of the extraction
 * directory on disk are inputs: a response either times out or carries a
 * status, the length of its body, what that body decodes to, and the byte
 * size the version directory has once the kept files are written.
 */
module Extraction {
  import opened Wrappers
  import opened Utils

  type byte = b: int | 0 <= b < 256

  /** One entry of a tar archive. */
  datatype Member = Member(name: string, isDir: bool)

  /** What a downloaded body decodes to. */
  datatype Payload =
    | TarGz(members: seq<Member>)    // a gzip-compressed tar archive
    | SingleGzip(content: seq<byte>) // gzip but not tar: the decompressed bytes
    | Unreadable                     // not even gzip: decoding raises

  /** What extraction leaves in the version directory, in the order it is written. */
  datatype Written =
    | MadeDir(path: string)
    | ExtractedMember(path: string)
    | WroteFile(path: string, content: seq<byte>)

  predicate EndsWith(s: string, suffix: string) {
    |suffix| <= |s| && s[|s| - |suffix|..] == suffix
  }

  /** `name.endswith(('.tex', '.bib'))` */
  predicate IsSourceName(name: string) {
    EndsWith(name, ".tex") || EndsWith(name, ".bib")
  }

  /** What extraction does with one tar member: recreate a directory, extract a source file, or skip it. */
  function MemberAction(m: Member): (w: Option<Written>)
    ensures w.Some? ==> !w.value.WroteFile? && w.value.path == m.name
  {
    if m.isDir then Some(MadeDir(m.name))
    else if IsSourceName(m.name) then Some(ExtractedMember(m.name))
    else None
  }

  /** The entries written for a list of tar members, in member order. */
  function FilterMembers(members: seq<Member>): (ws: seq<Written>)
    ensures |ws| <= |members|
  {
    if members == [] then []
    else
      var last := members[|members| - 1];
      FilterMembers(members[..|members| - 1]) + (if MemberAction(last).Some? then [MemberAction(last).value] else [])
  }

  /**
   * A file is extracted exactly when some non-directory member has its name
   * and that name ends in .tex or .bib.
   */
  lemma {:induction false} ExtractedIff(members: seq<Member>, path: string)
    ensures ExtractedMember(path) in FilterMembers(members) <==>
      IsSourceName(path) && exists i :: 0 <= i < |members| && members[i] == Member(path, false)
  {
    if members != [] {
      var init := members[..|members| - 1];
      ExtractedIff(init, path);
      if exists i :: 0 <= i < |members| && members[i] == Member(path, false) {
        var i :| 0 <= i < |members| && members[i] == Member(path, false);
        if i < |init| { assert init[i] == members[i]; }
      }
      if exists i :: 0 <= i < |init| && init[i] == Member(path, false) {
        var i :| 0 <= i < |init| && init[i] == Member(path, false);
        assert members[i] == init[i];
      }
    }
  }

  /** A directory is recreated exactly when some directory member has that name. */
  lemma {:induction false} MadeDirIff(members: seq<Member>, path: string)
    ensures MadeDir(path) in FilterMembers(members) <==>
      exists i :: 0 <= i < |members| && members[i] == Member(path, true)
  {
    if members != [] {
      var init := members[..|members| - 1];
      MadeDirIff(init, path);
      if exists i :: 0 <= i < |members| && members[i] == Member(path, true) {
        var i :| 0 <= i < |members| && members[i] == Member(path, true);
        if i < |init| { assert init[i] == members[i]; }
      }
      if exists i :: 0 <= i < |init| && init[i] == Member(path, true) {
        var i :| 0 <= i < |init| && init[i] == Member(path, true);
        assert members[i] == init[i];
      }
    }
  }

  /** Tar extraction never writes a file under a name of its own choosing. */
  lemma {:induction false} FilterMembersNoRename(members: seq<Member>)
    ensures forall w :: w in FilterMembers(members) ==> !w.WroteFile?
    ensures |FilterMembers(members)| <= |members|
  {
    if members != [] {
      FilterMembersNoRename(members[..|members| - 1]);
    }
  }

  /** A .tex and a .bib member are extracted under their own names; a .png member is skipped. */
  lemma ActionExamples()
    ensures MemberAction(Member("a.tex", false)) == Some(ExtractedMember("a.tex"))
    ensures MemberAction(Member("b.bib", false)) == Some(ExtractedMember("b.bib"))
    ensures MemberAction(Member("c.png", false)) == None
  {
    assert "a.tex"[1..] == ".tex" && "b.bib"[1..] == ".bib" && "c.png"[1..] == ".png";
    assert "c.png"[1..] != ".bib";
  }

  /** An archive holding a.tex, b.bib and c.png yields exactly a.tex and b.bib. */
  lemma TarExample()
    ensures FilterMembers([Member("a.tex", false), Member("b.bib", false), Member("c.png", false)])
      == [ExtractedMember("a.tex"), ExtractedMember("b.bib")]
  {
    var a, b, c := Member("a.tex", false), Member("b.bib", false), Member("c.png", false);
    ActionExamples();
    assert [a, b, c][..2] == [a, b];
    assert [a, b][..1] == [a];
    assert [a][..0] == [];
    assert FilterMembers([a]) == [ExtractedMember("a.tex")];
    assert FilterMembers([a, b]) == [ExtractedMember("a.tex"), ExtractedMember("b.bib")];
  }

  // ---------------------------------------------------------------------
  // A single gzip-compressed file
  // ---------------------------------------------------------------------

  /** The bytes of an ASCII string. */
  function Ascii(s: string): (b: seq<byte>)
    requires forall i :: 0 <= i < |s| ==> s[i] as int < 128
    ensures |b| == |s|
  {
    seq(|s|, i requires 0 <= i < |s| => s[i] as int)
  }

  const DocumentClass: seq<byte> := Ascii("\\documentclass")
  const BeginDocument: seq<byte> := Ascii("\\begin{document}")

  /** `pat in s` on bytes, scanning left to right. */
  function IsInfix(pat: seq<byte>, s: seq<byte>): bool
    decreases |s|
  {
    |pat| <= |s| && (s[..|pat|] == pat || IsInfix(pat, s[1..]))
  }

  /** `pat` occurs in `s` starting at position `i`. */
  predicate OccursAt(pat: seq<byte>, s: seq<byte>, i: int) {
    0 <= i <= |s| - |pat| && s[i..i + |pat|] == pat
  }

  /** The scan finds `pat` exactly when it occurs at some position of `s`. */
  lemma {:induction false} IsInfixIff(pat: seq<byte>, s: seq<byte>)
    ensures IsInfix(pat, s) <==> exists i :: OccursAt(pat, s, i)
    decreases |s|
  {
    if |pat| <= |s| {
      if s[..|pat|] == pat {
        assert OccursAt(pat, s, 0);
      } else {
        assert s != [];
        IsInfixIff(pat, s[1..]);
        if exists i :: OccursAt(pat, s, i) {
          var i :| OccursAt(pat, s, i);
          assert i > 0;
          assert s[1..][i - 1..i - 1 + |pat|] == s[i..i + |pat|];
          assert OccursAt(pat, s[1..], i - 1);
        }
        if exists i :: OccursAt(pat, s[1..], i) {
          var i :| OccursAt(pat, s[1..], i);
          assert s[i + 1..i + 1 + |pat|] == s[1..][i..i + |pat|];
          assert OccursAt(pat, s, i + 1);
        }
      }
    }
  }

  /** The name a lone gzip payload is stored under: main.tex when it looks like a TeX document, else source. */
  function SingleFileName(content: seq<byte>): (name: string)
    ensures name == "main.tex" || name == "source"
  {
    if IsInfix(DocumentClass, content) || IsInfix(BeginDocument, content) then "main.tex" else "source"
  }

  /** A payload with \documentclass anywhere in it is stored as main.tex. */
  lemma DocumentClassMeansMainTex(before: seq<byte>, after: seq<byte>)
    ensures SingleFileName(before + DocumentClass + after) == "main.tex"
  {
    var s := before + DocumentClass + after;
    IsInfixIff(DocumentClass, s);
    assert s[|before|..|before| + |DocumentClass|] == DocumentClass;
    assert OccursAt(DocumentClass, s, |before|);
  }

  /** A payload with \begin{document} anywhere in it is stored as main.tex. */
  lemma BeginDocumentMeansMainTex(before: seq<byte>, after: seq<byte>)
    ensures SingleFileName(before + BeginDocument + after) == "main.tex"
  {
    var s := before + BeginDocument + after;
    IsInfixIff(BeginDocument, s);
    assert s[|before|..|before| + |BeginDocument|] == BeginDocument;
    assert OccursAt(BeginDocument, s, |before|);
  }

  /**
   * The single file is main.tex exactly when either marker occurs at some
   * position of the payload, and source otherwise.
   */
  lemma SingleFileNameIff(content: seq<byte>)
    ensures SingleFileName(content) == "main.tex" <==>
      (exists i :: OccursAt(DocumentClass, content, i)) || (exists i :: OccursAt(BeginDocument, content, i))
    ensures SingleFileName(content) != "main.tex" <==> SingleFileName(content) == "source"
  {
    IsInfixIff(DocumentClass, content);
    IsInfixIff(BeginDocument, content);
  }

  /** A payload in which neither marker occurs anywhere is stored as source. */
  lemma NoMarkerMeansSource(content: seq<byte>)
    requires forall i :: !OccursAt(DocumentClass, content, i)
    requires forall i :: !OccursAt(BeginDocument, content, i)
    ensures SingleFileName(content) == "source"
  {
    IsInfixIff(DocumentClass, content);
    IsInfixIff(BeginDocument, content);
  }

  /** What `_extract_filtered` writes for a payload, or None when it raises. */
  function ExtractionOf(payload: Payload): Option<seq<Written>>
  {
    match payload
    case TarGz(members) => Some(FilterMembers(members))
    case SingleGzip(content) => Some([WroteFile(SingleFileName(content), content)])
    case Unreadable => None
  }

  /**
   * _extract_filtered: walk the tar members, recreating directories and
   * extracting .tex/.bib files; if the payload is not a tar archive, write
   * the decompressed bytes as one file named by sniffing its content.
   */
  method ExtractFiltered(payload: Payload) returns (written: Option<seq<Written>>)
    ensures written == ExtractionOf(payload)
  {
    match payload {
      case TarGz(members) =>
        var out: seq<Written> := [];
        for k := 0 to |members|
          invariant out == FilterMembers(members[..k])
        {
          var member := members[k];
          assert members[..k + 1][..k] == members[..k];
          if member.isDir {
            out := out + [MadeDir(member.name)];
          } else if EndsWith(member.name, ".tex") || EndsWith(member.name, ".bib") {
            out := out + [ExtractedMember(member.name)];
          }
        }
        assert members[..|members|] == members;
        written := Some(out);
      case SingleGzip(content) =>
        written := Some([WroteFile(SingleFileName(content), content)]);
      case Unreadable =>
        written := None;
    }
  }

  // ---------------------------------------------------------------------
  // One version (ArxivScraper._download_and_extract_version)
  // ---------------------------------------------------------------------

  /** The e-print server's answer for one version. */
  datatype VersionResponse =
    | TimedOut
    | Response(status: int, bodyLength: nat, payload: Payload, extractedSize: nat)

  /** What a successfully fetched version reports back. */
  datatype VersionFetch = VersionFetch(sizeBefore: nat, sizeAfter: nat, date: string, peak: nat, files: seq<Written>)

  /** The paper id and version number a version id is split into: around its last 'v', or version 1 when it has none. */
  function VersionParts(versionId: string): (string, string)
  {
    if 'v' in versionId then (BeforeLast(versionId, 'v'), AfterLast(versionId, 'v')) else (versionId, "1")
  }

  function DownloadUrl(versionId: string): string
  {
    var (paperId, versionNum) := VersionParts(versionId);
    "https://arxiv.org/e-print/" + paperId + "v" + versionNum
  }

  /** The id `process_paper` builds for version n is split back into the paper id and n, and downloaded under that same id. */
  lemma VersionIdRoundTrip(paperId: string, n: nat)
    ensures VersionParts(paperId + "v" + Decimal(n)) == (paperId, Decimal(n))
    ensures DownloadUrl(paperId + "v" + Decimal(n)) == "https://arxiv.org/e-print/" + paperId + "v" + Decimal(n)
  {
    var d := Decimal(n);
    DigitsLackLetter(d, 'v');
    assert paperId + "v" + d == paperId + ['v'] + d;
    SplitAtLast(paperId, 'v', d);
    assert 'v' in paperId + ['v'] + d by { assert (paperId + ['v'] + d)[|paperId|] == 'v'; }
  }

  /**
   * The version `_download_and_extract_version` reports, or None when it
   * raises: a timeout, a status other than 200, or a body that is not gzip.
   */
  function VersionOutcome(versionDate: string, today: string, resp: VersionResponse): (r: Option<VersionFetch>)
    ensures r.Some? <==> resp.Response? && resp.status == 200 && !resp.payload.Unreadable?
    ensures r.Some? ==> && r.value.sizeBefore == resp.bodyLength
                        && r.value.sizeAfter == resp.extractedSize
                        && r.value.peak == r.value.sizeBefore + r.value.sizeAfter
                        && r.value.date == (if versionDate != "" then versionDate else today)
                        && Some(r.value.files) == ExtractionOf(resp.payload)
  {
    match resp
    case TimedOut => None
    case Response(status, bodyLength, payload, extractedSize) =>
      if status != 200 then None
      else match ExtractionOf(payload)
        case None => None
        case Some(files) =>
          var date := if versionDate != "" then versionDate else today;
          Some(VersionFetch(bodyLength, extractedSize, date, bodyLength + extractedSize, files))
  }

  /**
   * _download_and_extract_version: request the version's archive, reject a
   * non-200 answer, extract it, and report both sizes, their sum as the
   * peak disk use, and the version's date (today when none was given).
   */
  method DownloadAndExtractVersion(versionId: string, versionDate: string, today: string, resp: VersionResponse)
    returns (r: Option<VersionFetch>, url: string)
    ensures url == DownloadUrl(versionId)
    ensures r == VersionOutcome(versionDate, today, resp)
  {
    var paperId, versionNum;
    if 'v' in versionId {
      paperId := BeforeLast(versionId, 'v');
      versionNum := AfterLast(versionId, 'v');
    } else {
      paperId := versionId;
      versionNum := "1";
    }
    url := "https://arxiv.org/e-print/" + paperId + "v" + versionNum;
    if resp.TimedOut? || resp.status != 200 {
      return None, url;
    }
    var date := if versionDate == "" then today else versionDate;
    var files := ExtractFiltered(resp.payload);
    if files.None? {
      return None, url;
    }
    r := Some(VersionFetch(resp.bodyLength, resp.extractedSize, date, resp.bodyLength + resp.extractedSize, files.value));
  }
}
