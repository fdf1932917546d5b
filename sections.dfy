/** The search-index records `create_sections` builds for one uploaded file:
    the document id derived from the file name, the per-page blob name, and
    one record per section of `split_text`. */
module Sections {
  import opened Wrappers
  import opened TextUtil
  import opened Segmenter

  type Byte = b: int | 0 <= b < 256

  // ---------------------------------------------------------------------------
  // UTF-8 and base16

  /** The UTF-8 encoding of one code point: 7 bits in one byte, 11 in two, 16
      in three, 21 in four; every byte after the first carries 6 bits. */
  function Utf8Char(c: char): (bs: seq<Byte>)
    ensures 1 <= |bs| <= 4
  {
    var n := c as int;
    var q1 := n / 64;
    var q2 := q1 / 64;
    var q3 := q2 / 64;
    if n < 0x80 then [n]
    else if n < 0x800 then [0xC0 + q1, 0x80 + n % 64]
    else if n < 0x10000 then [0xE0 + q2, 0x80 + q1 % 64, 0x80 + n % 64]
    else [0xF0 + q3, 0x80 + q2 % 64, 0x80 + q1 % 64, 0x80 + n % 64]
  }

  /** `s.encode('utf-8')`. */
  function Utf8(s: string): (bs: seq<Byte>)
    ensures |s| <= |bs| <= 4 * |s|
  {
    if s == [] then [] else Utf8Char(s[0]) + Utf8(s[1..])
  }

  /** The number of bytes of an encoding that starts with `lead`. */
  function Utf8Length(lead: Byte): nat {
    if lead < 0x80 then 1 else if lead < 0xE0 then 2 else if lead < 0xF0 then 3 else 4
  }

  /** The code point a one- to four-byte UTF-8 sequence encodes. */
  function CodePoint(bs: seq<Byte>): int
    requires 1 <= |bs| <= 4
  {
    if |bs| == 1 then bs[0]
    else if |bs| == 2 then (bs[0] as int - 0xC0) * 64 + (bs[1] as int - 0x80)
    else if |bs| == 3 then ((bs[0] as int - 0xE0) * 64 + (bs[1] as int - 0x80)) * 64 + (bs[2] as int - 0x80)
    else (((bs[0] as int - 0xF0) * 64 + (bs[1] as int - 0x80)) * 64 + (bs[2] as int - 0x80)) * 64 + (bs[3] as int - 0x80)
  }

  /** Decoding one code point's encoding gives it back, and its first byte
      tells how long the encoding is. */
  lemma Utf8CharDecodes(c: char)
    ensures |Utf8Char(c)| == Utf8Length(Utf8Char(c)[0])
    ensures CodePoint(Utf8Char(c)) == c as int
  {
    var n := c as int;
    var q1 := n / 64;
    var q2 := q1 / 64;
    assert n == q1 * 64 + n % 64;
    assert q1 == q2 * 64 + q1 % 64;
    assert q2 == (q2 / 64) * 64 + q2 % 64;
  }

  lemma Utf8CharInjective(c: char, d: char)
    requires Utf8Char(c) == Utf8Char(d)
    ensures c == d
  {
    Utf8CharDecodes(c);
    Utf8CharDecodes(d);
  }

  /** No code point's encoding is a proper prefix of another's. */
  lemma Utf8CharPrefixFree(c: char, d: char, r1: seq<Byte>, r2: seq<Byte>)
    requires Utf8Char(c) + r1 == Utf8Char(d) + r2
    ensures c == d && r1 == r2
  {
    var bc, bd := Utf8Char(c), Utf8Char(d);
    var s := bc + r1;
    Utf8CharDecodes(c);
    Utf8CharDecodes(d);
    assert s[0] == bc[0] == bd[0];
    assert bc == s[..|bc|] == bd;
    Utf8CharInjective(c, d);
    assert r1 == s[|bc|..] == r2;
  }

  /** Distinct strings have distinct UTF-8 encodings. */
  lemma {:induction false} Utf8Injective(s: string, t: string)
    requires Utf8(s) == Utf8(t)
    ensures s == t
    decreases |s|
  {
    if s != [] && t != [] {
      Utf8CharPrefixFree(s[0], t[0], Utf8(s[1..]), Utf8(t[1..]));
      Utf8Injective(s[1..], t[1..]);
      assert s == [s[0]] + s[1..] && t == [t[0]] + t[1..];
    }
  }

  predicate IsHexDigit(c: char) {
    '0' <= c <= '9' || 'A' <= c <= 'F'
  }

  /** The upper-case hex digit of a nibble. */
  function HexDigit(d: nat): (c: char)
    requires d < 16
    ensures IsHexDigit(c)
  {
    if d < 10 then (48 + d) as char else (55 + d) as char
  }

  function HexValue(c: char): nat {
    if '0' <= c <= '9' then (c as int) - ('0' as int)
    else if 'A' <= c <= 'F' then (c as int) - ('A' as int) + 10
    else 0
  }

  /** The two hex digits of a byte, high nibble first. */
  function HexByte(b: Byte): string {
    [HexDigit(b / 16), HexDigit(b % 16)]
  }

  /** `base64.b16encode(bs).decode('ascii')`. */
  function Hex(bs: seq<Byte>): (h: string)
    ensures |h| == 2 * |bs|
    ensures forall k | 0 <= k < |h| :: IsHexDigit(h[k])
  {
    if bs == [] then [] else HexByte(bs[0]) + Hex(bs[1..])
  }

  /** The inverse of `Hex` on hex digits (see `UnhexHex`); unlike
      `base64.b16decode` it does not reject other characters. */
  function Unhex(h: string): seq<Byte>
    decreases |h|
  {
    if |h| < 2 then [] else [(16 * HexValue(h[0]) + HexValue(h[1])) % 256] + Unhex(h[2..])
  }

  lemma UnhexByte(b: Byte)
    ensures (16 * HexValue(HexByte(b)[0]) + HexValue(HexByte(b)[1])) % 256 == b
  {
    assert HexValue(HexDigit(b / 16)) == b / 16;
    assert HexValue(HexDigit(b % 16)) == b % 16;
  }

  /** Decoding the hex rendering gives the bytes back. */
  lemma {:induction false} UnhexHex(bs: seq<Byte>)
    ensures Unhex(Hex(bs)) == bs
    decreases |bs|
  {
    if bs != [] {
      var h := Hex(bs);
      var pair := HexByte(bs[0]);
      assert h[0] == pair[0] && h[1] == pair[1] && h[2..] == Hex(bs[1..]);
      UnhexByte(bs[0]);
      UnhexHex(bs[1..]);
      assert bs == [bs[0]] + bs[1..];
    }
  }

  lemma HexIsDashFree(bs: seq<Byte>)
    ensures DashFree(Hex(bs))
  {
    var h := Hex(bs);
    assert forall k | 0 <= k < |h| :: IsHexDigit(h[k]);
  }

  // ---------------------------------------------------------------------------
  // filename_to_id

  predicate IdChar(c: char) {
    '0' <= c <= '9' || 'a' <= c <= 'z' || 'A' <= c <= 'Z' || c == '_' || c == '-'
  }

  /** `re.sub("[^0-9a-zA-Z_-]", "_", s)`: every other character becomes `_`. */
  function Sanitize(s: string): (r: string)
    ensures |r| == |s|
    ensures forall k | 0 <= k < |s| :: IdChar(r[k]) && (IdChar(s[k]) ==> r[k] == s[k]) && (!IdChar(s[k]) ==> r[k] == '_')
  {
    if s == [] then [] else [if IdChar(s[0]) then s[0] else '_'] + Sanitize(s[1..])
  }

  /** `filename_to_id(filename)`: `file-`, then the sanitised name, then `-`
      and a dash-free hex tail. */
  function FilenameToId(fileName: string): (id: string)
    ensures |id| == 6 + |fileName| + |Hex(Utf8(fileName))| && id[..5] == "file-"
    ensures forall k | 5 <= k < 5 + |fileName| :: IdChar(id[k])
    ensures id[5 + |fileName|] == '-' && DashFree(id[6 + |fileName|..])
  {
    var san := Sanitize(fileName);
    var id := "file-" + san + "-" + Hex(Utf8(fileName));
    HexIsDashFree(Utf8(fileName));
    assert forall k | 5 <= k < 5 + |fileName| :: id[k] == san[k - 5];
    assert id[6 + |fileName|..] == Hex(Utf8(fileName));
    id
  }

  /** Distinct file names get distinct ids. */
  lemma FilenameToIdInjective(f1: string, f2: string)
    requires FilenameToId(f1) == FilenameToId(f2)
    ensures f1 == f2
  {
    HexIsDashFree(Utf8(f1));
    HexIsDashFree(Utf8(f2));
    SplitAtLastDash("file-" + Sanitize(f1), Hex(Utf8(f1)), "file-" + Sanitize(f2), Hex(Utf8(f2)));
    UnhexHex(Utf8(f1));
    UnhexHex(Utf8(f2));
    Utf8Injective(f1, f2);
  }

  // ---------------------------------------------------------------------------
  // POSIX path helpers and blob_name_from_file_page

  /** `os.path.basename(p)`: everything after the last `/`. */
  function Basename(p: string): (b: string)
    ensures NoSlash(b)
    ensures |b| <= |p| && b == p[|p| - |b|..]
    ensures |b| < |p| ==> p[|p| - |b| - 1] == '/'
  {
    var i := RFind(p, "/");
    var b := p[i + 1..];
    assert i >= 0 ==> p[i..i + 1][0] == p[i];
    forall k | 0 <= k < |b| ensures b[k] != '/' {
      CharOccurs(p, i + 1 + k);
    }
    b
  }

  /** Some character of `p[from..to]` is not a dot. */
  predicate HasNonDot(p: string, from: nat, to: nat)
    requires from <= to <= |p|
  {
    exists k :: from <= k < to && p[k] != '.'
  }

  /** `os.path.splitext(p)`: the extension is the part from the last dot, if
      that dot comes after the last `/` and is not one of the leading dots of
      the final component; otherwise it is empty. */
  function SplitExt(p: string): (r: (string, string))
    ensures r.0 + r.1 == p
    ensures r.1 != [] ==> r.1[0] == '.' && |r.0| == RFind(p, ".")
    ensures NoSlash(r.1) && forall k | 0 < k < |r.1| :: r.1[k] != '.'
    ensures r.1 != [] <==> RFind(p, ".") > RFind(p, "/") && HasNonDot(p, RFind(p, "/") + 1, RFind(p, "."))
  {
    var sep := RFind(p, "/");
    var dot := RFind(p, ".");
    if dot > sep && HasNonDot(p, sep + 1, dot) then
      assert p[dot..dot + 1][0] == p[dot];
      forall k | dot <= k < |p| ensures p[k] != '/' && (k > dot ==> p[k] != '.') {
        CharOccurs(p, k);
      }
      (p[..dot], p[dot..])
    else (p, "")
  }

  lemma CharOccurs(p: string, k: nat)
    requires k < |p|
    ensures OccursAt(p, [p[k]], k)
  {
  }

  function AsciiLower(s: string): (r: string)
    ensures |r| == |s|
  {
    if s == [] then [] else [if 'A' <= s[0] <= 'Z' then (s[0] as int + 32) as char else s[0]] + AsciiLower(s[1..])
  }

  predicate IsPdf(fileName: string) {
    AsciiLower(SplitExt(fileName).1) == ".pdf"
  }

  /** `blob_name_from_file_page(filename, page)`: a single path component;
      for a PDF, the root of the base name, the page, and `.pdf`; otherwise
      the base name. */
  function BlobNameFromFilePage(fileName: string, page: int): (name: string)
    ensures NoSlash(name)
    ensures IsPdf(fileName) ==> var stem := SplitExt(Basename(fileName)).0;
      |name| > |stem| + 4 && name[..|stem|] == stem && name[|name| - 4..] == ".pdf"
    ensures !IsPdf(fileName) ==> name == Basename(fileName)
  {
    var base := Basename(fileName);
    if IsPdf(fileName) then
      var stem := SplitExt(base).0;
      NoSlashPrefix(stem, SplitExt(base).1);
      PageNameShape(stem, page);
      PageName(stem, page)
    else base
  }

  predicate NoSlash(s: string) {
    forall k | 0 <= k < |s| :: s[k] != '/'
  }

  /** The blob of one page of a PDF. */
  function PageName(stem: string, page: int): string {
    stem + "-" + IntToString(page) + ".pdf"
  }

  /** `<stem>-<page>.pdf` starts with `stem`, ends with `.pdf`, and is a
      single path component when `stem` is. */
  lemma PageNameShape(stem: string, page: int)
    requires NoSlash(stem)
    ensures var n := PageName(stem, page);
      NoSlash(n) && |n| > |stem| + 4 && n[..|stem|] == stem && n[|n| - 4..] == ".pdf"
  {
    var digits := IntToString(page);
    assert NoSlash(digits) by {
      forall k | 0 <= k < |digits| ensures digits[k] != '/' {
        assert IsDigit(digits[k]) || digits[k] == '-';
      }
    }
    NoSlashConcat(stem, "-");
    NoSlashConcat(stem + "-", digits);
    NoSlashConcat(stem + "-" + digits, ".pdf");
  }

  /** Distinct pages of one stem name distinct blobs. */
  lemma PageNameInjective(stem: string, p1: int, p2: int)
    requires PageName(stem, p1) == PageName(stem, p2)
    ensures p1 == p2
  {
    var n1, n2 := PageName(stem, p1), PageName(stem, p2);
    var s1, s2 := IntToString(p1), IntToString(p2);
    assert |s1| == |s2|;
    assert s1 == n1[|stem| + 1..|n1| - 4];
    assert s2 == n2[|stem| + 1..|n2| - 4];
    IntToStringInjective(p1, p2);
  }

  lemma NoSlashPrefix(a: string, b: string)
    requires NoSlash(a + b)
    ensures NoSlash(a)
  {
    forall k | 0 <= k < |a| ensures a[k] != '/' { assert (a + b)[k] == a[k]; }
  }

  lemma NoSlashConcat(a: string, b: string)
    requires NoSlash(a) && NoSlash(b)
    ensures NoSlash(a + b)
  {
    var ab := a + b;
    forall k | 0 <= k < |ab| ensures ab[k] != '/' {
      if k < |a| { assert ab[k] == a[k]; } else { assert ab[k] == b[k - |a|]; }
    }
  }

  /** A file that is not a PDF has one blob, named by its base name, whatever
      the page. */
  lemma NonPdfIgnoresPage(fileName: string, p1: int, p2: int)
    requires !IsPdf(fileName)
    ensures BlobNameFromFilePage(fileName, p1) == BlobNameFromFilePage(fileName, p2) == Basename(fileName)
  {
  }

  /** A PDF gets one blob per page, `<stem>-<page>.pdf`, and distinct pages
      get distinct names. */
  lemma PdfPageNamesDistinct(fileName: string, p1: int, p2: int)
    requires IsPdf(fileName)
    requires BlobNameFromFilePage(fileName, p1) == BlobNameFromFilePage(fileName, p2)
    ensures p1 == p2
  {
    PageNameInjective(SplitExt(Basename(fileName)).0, p1, p2);
  }

  lemma NoSlashInBasename(p: string)
    ensures RFind(Basename(p), "/") == -1
  {
    RFindInSuffix(p, RFind(p, "/") + 1, "/");
  }

  /** The last dot of the base name is the last dot of the path, if that one
      comes after the last `/`. */
  lemma LastDotOfBasename(p: string)
    ensures var i, dp := RFind(p, "/"), RFind(p, ".");
      RFind(Basename(p), ".") == if dp > i then dp - i - 1 else -1
  {
    RFindInSuffix(p, RFind(p, "/") + 1, ".");
  }

  /** Shifting a range into a suffix keeps whether it holds a non-dot. */
  lemma HasNonDotInSuffix(p: string, a: nat, to: nat)
    requires a <= to <= |p|
    ensures HasNonDot(p[a..], 0, to - a) <==> HasNonDot(p, a, to)
  {
    if HasNonDot(p, a, to) {
      var k :| a <= k < to && p[k] != '.';
      assert p[a..][k - a] == p[k];
    }
    if HasNonDot(p[a..], 0, to - a) {
      var k :| 0 <= k < to - a && p[a..][k] != '.';
      assert p[a + k] == p[a..][k];
    }
  }

  /** The extension rule reads the final path component only. */
  lemma ExtensionOfBasename(p: string)
    ensures SplitExt(Basename(p)).1 == SplitExt(p).1
  {
    var i, dp := RFind(p, "/"), RFind(p, ".");
    var b := Basename(p);
    assert b == p[i + 1..];
    NoSlashInBasename(p);
    LastDotOfBasename(p);
    if dp > i {
      HasNonDotInSuffix(p, i + 1, dp);
      assert b[dp - i - 1..] == p[dp..];
    }
  }

  // ---------------------------------------------------------------------------
  // create_sections

  /** One document of the search index. */
  datatype SearchDoc = SearchDoc(
    id: string,
    content: string,
    category: Option<string>,
    sourcePage: string,
    sourceFile: string)

  /** The suffix `-page-<i>` that numbers the sections of a file. */
  function SectionId(fileName: string, i: nat): string {
    FilenameToId(fileName) + "-page-" + NatToString(i)
  }

  /** The record for section `i`, with text `content` starting on page `page`. */
  function SectionDoc(fileName: string, i: nat, content: string, page: int): (d: SearchDoc)
  {
    SearchDoc(SectionId(fileName, i), content, None, BlobNameFromFilePage(fileName, page), fileName)
  }

  /** `[f(j, x) for j, x in enumerate(xs)]`. */
  function Enumerate<A, B>(f: (nat, A) -> B, xs: seq<A>): seq<B> {
    if xs == [] then [] else Enumerate(f, xs[..|xs| - 1]) + [f(|xs| - 1, xs[|xs| - 1])]
  }

  lemma {:induction false} EnumerateIndex<A, B>(f: (nat, A) -> B, xs: seq<A>)
    ensures |Enumerate(f, xs)| == |xs|
    ensures forall j | 0 <= j < |xs| :: Enumerate(f, xs)[j] == f(j, xs[j])
    decreases |xs|
  {
    if xs != [] {
      var init := xs[..|xs| - 1];
      EnumerateIndex(f, init);
      assert forall j | 0 <= j < |init| :: init[j] == xs[j];
    }
  }

  /** The records of `sections`, numbered from 0. */
  function DocsOf(fileName: string, sections: seq<(string, int)>): seq<SearchDoc> {
    Enumerate((j: nat, s: (string, int)) => SectionDoc(fileName, j, s.0, s.1), sections)
  }

  /** Record `j` is section `j`, with id `filename_to_id(f)-page-j`. */
  lemma DocsOfIndex(fileName: string, sections: seq<(string, int)>)
    ensures |DocsOf(fileName, sections)| == |sections|
    ensures forall j | 0 <= j < |sections| ::
      DocsOf(fileName, sections)[j] == SectionDoc(fileName, j, sections[j].0, sections[j].1)
  {
    EnumerateIndex((j: nat, s: (string, int)) => SectionDoc(fileName, j, s.0, s.1), sections);
  }

  /** One more section adds its record at the end. */
  lemma DocsOfSnoc(fileName: string, sections: seq<(string, int)>, i: nat)
    requires i < |sections|
    ensures DocsOf(fileName, sections[..i + 1]) ==
      DocsOf(fileName, sections[..i]) + [SectionDoc(fileName, i, sections[i].0, sections[i].1)]
  {
    assert sections[..i + 1][..i] == sections[..i];
  }

  /** `create_sections(uploaded_file, page_map, use_vectors=False)`: one
      record per section, numbered in split order. */
  method CreateSections(fileName: string, pageMap: seq<Page>) returns (docs: seq<SearchDoc>)
    requires Halts(AllText(pageMap))
    ensures docs == DocsOf(fileName, SplitTextSpec(pageMap))
  {
    var sections := SplitText(pageMap);
    docs := NumberSections(fileName, sections);
  }

  /** The loop of `create_sections` over `enumerate(split_text(page_map))`. */
  method NumberSections(fileName: string, sections: seq<(string, int)>) returns (docs: seq<SearchDoc>)
    ensures docs == DocsOf(fileName, sections)
  {
    var fileId := FilenameToId(fileName);
    docs := [];
    var i := 0;
    while i < |sections|
      invariant i <= |sections|
      invariant docs == DocsOf(fileName, sections[..i])
    {
      var (content, pageNum) := sections[i];
      var section := SearchDoc(fileId + "-page-" + NatToString(i), content, None,
                               BlobNameFromFilePage(fileName, pageNum), fileName);
      DocsOfSnoc(fileName, sections, i);
      docs := docs + [section];
      i := i + 1;
    }
    assert sections[..i] == sections;
  }

  /** Section ids determine the file and the section number: no two sections
      of one upload, and no sections of two different files, share an id. */
  lemma SectionIdInjective(f1: string, i1: nat, f2: string, i2: nat)
    requires SectionId(f1, i1) == SectionId(f2, i2)
    ensures f1 == f2 && i1 == i2
  {
    NatToStringDashFree(i1);
    NatToStringDashFree(i2);
    SplitAtLastDashAfter(FilenameToId(f1), NatToString(i1), FilenameToId(f2), NatToString(i2), "-page-");
    FilenameToIdInjective(f1, f2);
    NatToStringInjective(i1, i2);
  }

  /** The records `create_sections` yields for one file have pairwise
      distinct ids, and records of different files never share an id. */
  lemma DocIdsDistinct(f1: string, s1: seq<(string, int)>, j1: nat, f2: string, s2: seq<(string, int)>, j2: nat)
    requires j1 < |s1| && j2 < |s2|
    requires f1 != f2 || j1 != j2
    ensures |DocsOf(f1, s1)| == |s1| && |DocsOf(f2, s2)| == |s2|
    ensures DocsOf(f1, s1)[j1].id != DocsOf(f2, s2)[j2].id
  {
    DocsOfIndex(f1, s1);
    DocsOfIndex(f2, s2);
    if SectionId(f1, j1) == SectionId(f2, j2) {
      SectionIdInjective(f1, j1, f2, j2);
    }
  }
}
