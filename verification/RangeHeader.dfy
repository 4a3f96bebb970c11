/**
 The `Range` header of a blob request: how the server answers GET and HEAD with it, and what
 sections 13.1.5 and 14.1 to 14.4 of RFC 9110 ask for, written down separately.
 */
module RangeHeader {
  import opened Wrappers
  import opened Strings

  predicate AllDigits(s: string) {
    forall i | 0 <= i < |s| :: '0' <= s[i] <= '9'
  }

  function ParseInt(s: string): nat
    requires AllDigits(s)
  {
    if s == "" then 0 else ParseInt(s[..|s| - 1]) * 10 + (s[|s| - 1] as int - '0' as int)
  }

  // ------------------------------------------------------------------- the server

  datatype RangeRequest = Whole | Invalid | Range(start: int, end: int)

  /** The two sides of `bytes=<start>-<end>`. */
  function RangeSpec(header: string): Option<(string, string)> {
    if !("bytes=" <= header) then None
    else
      var parts := Split(header[6..], '-');
      if |parts| == 2 && AllDigits(parts[0]) && AllDigits(parts[1]) then Some((parts[0], parts[1])) else None
  }

  /** parseRangeHeader; an empty header counts as none. */
  function ParseRange(header: string, size: nat): RangeRequest {
    if header == "" then Whole
    else
      var spec := RangeSpec(header);
      if spec.None? || (spec.value.0 == "" && spec.value.1 == "") then Invalid
      else if spec.value.0 == "" then
        var n := ParseInt(spec.value.1);
        if n == 0 then Invalid else Range(if size > n then size - n else 0, size - 1)
      else
        var start := ParseInt(spec.value.0);
        var end := if spec.value.1 == "" then size - 1 else ParseInt(spec.value.1);
        if start >= size || end < start || end >= size then Invalid else Range(start, end)
  }

  datatype Verb = Get | Head

  /** A request for a blob; `ifRange` says that it carries an `If-Range` header, which the handler does not read. */
  datatype BlobRequest = BlobRequest(verb: Verb, header: string, ifRange: bool)

  /** `Partial` announces its positions in `content-range` and their number in `content-length`, to HEAD as well. */
  datatype Answer = Full(length: int) | Refused | Partial(first: int, last: int, length: int)

  /** blobHandler, once the blob is found. */
  function Respond(r: BlobRequest, size: nat): Answer {
    match ParseRange(r.header, size)
    case Invalid => Refused
    case Whole => Full(size)
    case Range(start, end) => Partial(start, end, end - start + 1)
  }

  // ----------------------------------------------------------------- the standard

  /** Section 14.1.2: `first-last`, `first-` or `-length`. */
  datatype ByteRange = FromTo(first: nat, last: nat) | From(first: nat) | Last(length: nat)

  /** Section 14.1: a unit the server does not understand, a set it may refuse, or the ranges that meet the data. */
  datatype Standard = UnknownUnit | Malformed | Unsatisfiable | Satisfiable(ranges: seq<(int, int)>)

  predicate IsTokenChar(c: char) {
    || 'a' <= c <= 'z' || 'A' <= c <= 'Z' || '0' <= c <= '9'
    || c in ['!', '#', '$', '%', '&', '\'', '*', '+', '-', '.', '^', '_', '`', '|', '~']
  }

  predicate IsToken(s: string) {
    s != "" && forall i | 0 <= i < |s| :: IsTokenChar(s[i])
  }

  /** Range unit names are compared without regard to case. */
  function Lower(s: string): string {
    seq(|s|, i requires 0 <= i < |s| => if 'A' <= s[i] <= 'Z' then (s[i] as int + 32) as char else s[i])
  }

  predicate IsBlank(c: char) {
    c == ' ' || c == '\t'
  }

  function TrimLeft(s: string): string {
    if s != "" && IsBlank(s[0]) then TrimLeft(s[1..]) else s
  }

  function TrimRight(s: string): string {
    if s != "" && IsBlank(s[|s| - 1]) then TrimRight(s[..|s| - 1]) else s
  }

  /** Section 5.6.1: blanks may surround the commas of a list, and empty elements are skipped. */
  function Elements(parts: seq<string>, first: bool): seq<string> {
    if parts == [] then []
    else
      var left := if first then parts[0] else TrimLeft(parts[0]);
      var e := if |parts| == 1 then left else TrimRight(left);
      (if e == "" then [] else [e]) + Elements(parts[1..], false)
  }

  function ReadByteRange(e: string): Option<ByteRange> {
    var parts := Split(e, '-');
    if |parts| != 2 || !AllDigits(parts[0]) || !AllDigits(parts[1]) || e == "-" then None
    else if parts[0] == "" then Some(Last(ParseInt(parts[1])))
    else if parts[1] == "" then Some(From(ParseInt(parts[0])))
    else if ParseInt(parts[1]) < ParseInt(parts[0]) then None
    else Some(FromTo(ParseInt(parts[0]), ParseInt(parts[1])))
  }

  function ReadRanges(es: seq<string>): Option<seq<ByteRange>> {
    if es == [] then Some([])
    else
      var first, others := ReadByteRange(es[0]), ReadRanges(es[1..]);
      if first.None? || others.None? then None else Some([first.value] + others.value)
  }

  /** The bytes a range selects, unless it lies behind the data; a last position beyond the end means the end. */
  function Selected(r: ByteRange, size: nat): seq<(int, int)> {
    match r
    case FromTo(first, last) => if first >= size then [] else [(first, if last < size then last else size - 1)]
    case From(first) => if first >= size then [] else [(first, size - 1)]
    case Last(length) => if length == 0 then [] else [(if length < size then size - length else 0, size - 1)]
  }

  function AllSelected(rs: seq<ByteRange>, size: nat): seq<(int, int)> {
    if rs == [] then [] else Selected(rs[0], size) + AllSelected(rs[1..], size)
  }

  function ReadSet(text: string, size: nat): Standard {
    var es := Elements(Split(text, ','), true);
    var rs := ReadRanges(es);
    if es == [] || rs.None? then Malformed
    else if AllSelected(rs.value, size) == [] then Unsatisfiable
    else Satisfiable(AllSelected(rs.value, size))
  }

  function StandardRange(header: string, size: nat): Standard {
    var parts := Split(header, '=');
    if |parts| < 2 || !IsToken(parts[0]) then Malformed
    else if Lower(parts[0]) != "bytes" then UnknownUnit
    else ReadSet(Join(parts[1..], '='), size)
  }

  /**
   Section 14.2 defines ranges for GET only, and section 13.1.5 lets no range through an
   `If-Range` that does not hold, as none does here: the server sends no validator.
   */
  predicate MustIgnore(r: BlobRequest) {
    r.verb == Head || r.ifRange
  }

  /**
   Section 14.2: the whole may always be sent, and must be where the header is to be ignored
   or its unit is unknown; a malformed or unsatisfiable set may be refused; what is satisfiable
   is answered with its ranges, whose first position is not behind the last (section 14.4).
   */
  predicate Complies(r: BlobRequest, size: nat, answer: Answer) {
    var standard := StandardRange(r.header, size);
    match answer
    case Full(length) => length == size
    case Refused => !MustIgnore(r) && (standard.Malformed? || standard.Unsatisfiable?)
    case Partial(first, last, length) =>
      !MustIgnore(r) && standard == Satisfiable([(first, last)]) && first <= last && length == last - first + 1
  }

  // ------------------------------------------------------------------- the difference

  /** One range after a lower-case unit, without blanks, whose last position is not beyond the data. */
  predicate PlainAndInside(header: string, size: nat) {
    var spec := RangeSpec(header);
    spec.Some? && (spec.value.0 != "" && spec.value.1 != "" ==> ParseInt(spec.value.1) < size)
  }

  lemma {:induction false} DigitsHaveNo(s: string, c: char)
    requires AllDigits(s) && !('0' <= c <= '9')
    ensures c !in s
  {
  }

  /** The header in pieces when it is of the one form the server knows. */
  lemma UnitAndText(text: string)
    requires '=' !in text
    ensures Split("bytes=" + text, '=') == ["bytes", text]
  {
    assert "bytes=" + text == "bytes" + ['='] + text;
    SplitFirst("bytes", text, '=');
    SplitPlain(text, '=');
  }

  lemma PlainPieces(header: string)
    requires RangeSpec(header).Some?
    ensures var (a, b) := RangeSpec(header).value;
            && header == "bytes=" + (a + "-" + b)
            && Split(header, '=') == ["bytes", a + "-" + b]
            && Split(a + "-" + b, ',') == [a + "-" + b]
            && Split(a + "-" + b, '-') == [a, b]
  {
    var (a, b) := RangeSpec(header).value;
    var text := header[6..];
    JoinSplit(text, '-');
    assert Split(text, '-') == [a, b] && [a, b][1..] == [b];
    assert text == a + ['-'] + b;
    DigitsHaveNo(a, '=');
    DigitsHaveNo(b, '=');
    DigitsHaveNo(a, ',');
    DigitsHaveNo(b, ',');
    UnitAndText(text);
    assert header[..6] == "bytes=" && header == header[..6] + text;
    SplitPlain(text, ',');
  }

  lemma BytesIsToken()
    ensures IsToken("bytes") && Lower("bytes") == "bytes"
  {
  }

  function OneRangeStandard(r: Option<ByteRange>, size: nat): Standard {
    if r.None? then Malformed
    else if Selected(r.value, size) == [] then Unsatisfiable else Satisfiable(Selected(r.value, size))
  }

  function OneRangeServer(r: Option<ByteRange>, size: nat): RangeRequest {
    if r.None? || Selected(r.value, size) == [] || (r.value.FromTo? && r.value.last >= size) then Invalid
    else Range(Selected(r.value, size)[0].0, Selected(r.value, size)[0].1)
  }

  /** The standard's reading of such a header is that of its one range. */
  lemma PlainStandard(header: string, size: nat)
    requires RangeSpec(header).Some?
    ensures var (a, b) := RangeSpec(header).value;
            var r := ReadByteRange(a + "-" + b);
            StandardRange(header, size) == OneRangeStandard(r, size)
  {
    var (a, b) := RangeSpec(header).value;
    var text := a + "-" + b;
    PlainPieces(header);
    BytesIsToken();
    assert ["bytes", text][1..] == [text];
    assert Elements([text], true) == [text] by {
      assert [text][1..] == [];
    }
    OneRange(text, size);
  }

  lemma OneRange(text: string, size: nat)
    ensures ReadRanges([text]) == if ReadByteRange(text).None? then None else Some([ReadByteRange(text).value])
    ensures forall r :: AllSelected([r], size) == Selected(r, size)
  {
    assert [text][1..] == [] && ReadRanges([]) == Some([]);
    assert forall r: ByteRange :: [r] + [] == [r];
    forall r: ByteRange
      ensures AllSelected([r], size) == Selected(r, size)
    {
      assert [r][1..] == [] && AllSelected([], size) == [];
    }
  }

  /** The server's reading of its one form, in the standard's terms. */
  lemma ServerReads(header: string, size: nat)
    requires RangeSpec(header).Some?
    ensures var (a, b) := RangeSpec(header).value;
            var r := ReadByteRange(a + "-" + b);
            ParseRange(header, size) == OneRangeServer(r, size)
    ensures var (a, b) := RangeSpec(header).value;
            var r := ReadByteRange(a + "-" + b);
            r.Some? ==> (PlainAndInside(header, size) <==> !(r.value.FromTo? && r.value.last >= size))
  {
    var (a, b) := RangeSpec(header).value;
    PlainPieces(header);
    assert a + "-" + b == "-" <==> a == "" && b == "";
  }

  lemma OneRangeComplies(r: BlobRequest, br: Option<ByteRange>, size: nat)
    requires !MustIgnore(r) && StandardRange(r.header, size) == OneRangeStandard(br, size)
    requires ParseRange(r.header, size) == OneRangeServer(br, size)
    requires br.Some? && br.value.FromTo? ==> br.value.first <= br.value.last
    ensures Complies(r, size, Respond(r, size))
            <==> (StandardRange(r.header, size).Satisfiable? ==>
                    !(br.value.FromTo? && br.value.last >= size) && size > 0)
  {
  }

  /**
   On its one form the server differs only by refusing what ends beyond the data, and by
   announcing a range of an empty blob.
   */
  lemma PlainComplies(r: BlobRequest, size: nat)
    requires RangeSpec(r.header).Some? && !MustIgnore(r)
    ensures Complies(r, size, Respond(r, size))
            <==> (StandardRange(r.header, size).Satisfiable? ==> PlainAndInside(r.header, size) && size > 0)
    ensures !StandardRange(r.header, size).UnknownUnit?
  {
    var (a, b) := RangeSpec(r.header).value;
    PlainStandard(r.header, size);
    ServerReads(r.header, size);
    OneRangeComplies(r, ReadByteRange(a + "-" + b), size);
  }

  /**
   A request is answered as the standard asks exactly when it has no range header, or it is a
   GET without `If-Range` whose unit the standard knows, and any range that the standard
   selects is a single one in the server's one form that ends inside a blob with bytes.
   */
  lemma RangeStandardIff(r: BlobRequest, size: nat)
    ensures Complies(r, size, Respond(r, size))
            <==> r.header == ""
                 || (!MustIgnore(r)
                     && !StandardRange(r.header, size).UnknownUnit?
                     && (StandardRange(r.header, size).Satisfiable? ==> PlainAndInside(r.header, size) && size > 0))
  {
    if RangeSpec(r.header).Some? && !MustIgnore(r) {
      PlainComplies(r, size);
    }
  }

  // ------------------------------------------------------- the seven ways to differ

  /** The first byte alone. */
  lemma FirstByte(size: nat)
    requires size > 0
    ensures ParseRange("bytes=0-0", size) == Range(0, 0)
  {
    assert "bytes=0-0"[6..] == "0-0" && "0-0" == "0" + ['-'] + "0";
    SplitFirst("0", "0", '-');
    SplitPlain("0", '-');
    assert "0"[..0] == "" && ParseInt("0") == 0;
  }

  /** A HEAD with a range announces the range, where the header is to be ignored. */
  lemma HeadHonoursRange(size: nat)
    requires size > 0
    ensures Respond(BlobRequest(Head, "bytes=0-0", false), size) == Partial(0, 0, 1)
    ensures !Complies(BlobRequest(Head, "bytes=0-0", false), size, Partial(0, 0, 1))
  {
    FirstByte(size);
  }

  /** A GET with a range and `If-Range` is answered with the range: no validator was compared. */
  lemma IfRangeUnread(size: nat)
    requires size > 0
    ensures Respond(BlobRequest(Get, "bytes=0-0", true), size) == Partial(0, 0, 1)
    ensures !Complies(BlobRequest(Get, "bytes=0-0", true), size, Partial(0, 0, 1))
  {
    FirstByte(size);
  }

  lemma SuffixSpec(digits: string)
    requires AllDigits(digits)
    ensures "bytes=-" + digits != "" && RangeSpec("bytes=-" + digits) == Some(("", digits))
  {
    var header := "bytes=-" + digits;
    assert header[..6] == "bytes=" && header[6..] == "" + ['-'] + digits;
    SplitFirst("", digits, '-');
    DigitsHaveNo(digits, '-');
    SplitPlain(digits, '-');
    assert Split(header[6..], '-') == ["", digits];
  }

  /** Any suffix of an empty blob is announced to end before it starts. */
  lemma EmptyBlobSuffix(digits: string)
    requires digits != "" && AllDigits(digits) && ParseInt(digits) > 0
    ensures var r := BlobRequest(Get, "bytes=-" + digits, false);
            Respond(r, 0) == Partial(0, -1, 0) && !Complies(r, 0, Partial(0, -1, 0))
  {
    SuffixSpec(digits);
    assert ParseRange("bytes=-" + digits, 0) == Range(0, -1);
  }

  /** Two ranges, the first and the last byte: refused, though both can be served. */
  lemma SeveralRangesRefused(size: nat)
    requires size > 0
    ensures ParseRange("bytes=0-0,-1", size) == Invalid
    ensures StandardRange("bytes=0-0,-1", size) == Satisfiable([(0, 0), (size - 1, size - 1)])
  {
    FirstAndLastUnread(size);
    FirstAndLastStandard(size);
  }

  lemma FirstAndLastUnread(size: nat)
    ensures ParseRange("bytes=0-0,-1", size) == Invalid
  {
    assert "bytes=0-0,-1"[6..] == "0-0,-1";
    TwoDashes();
  }

  lemma FirstAndLastStandard(size: nat)
    requires size > 0
    ensures StandardRange("bytes=0-0,-1", size) == Satisfiable([(0, 0), (size - 1, size - 1)])
  {
    assert "bytes=" + "0-0,-1" == "bytes=0-0,-1";
    LowerUnit("0-0,-1", size);
    FirstAndLastSet(size);
  }

  lemma LowerUnit(text: string, size: nat)
    requires '=' !in text
    ensures StandardRange("bytes=" + text, size) == ReadSet(text, size)
  {
    assert "bytes=" + text == "bytes" + ['='] + text;
    SplitFirst("bytes", text, '=');
    SplitPlain(text, '=');
    BytesIsToken();
    assert ["bytes", text][1..] == [text];
  }

  lemma TwoDashes()
    ensures |Split("0-0,-1", '-')| == 3
  {
    assert "0-0,-1" == "0" + ['-'] + ("0," + ['-'] + "1");
    SplitFirst("0", "0," + ['-'] + "1", '-');
    SplitFirst("0,", "1", '-');
    SplitPlain("1", '-');
  }

  lemma FirstAndLastElements()
    ensures Elements(Split("0-0,-1", ','), true) == ["0-0", "-1"]
  {
    assert "0-0,-1" == "0-0" + [','] + "-1";
    SplitFirst("0-0", "-1", ',');
    SplitPlain("-1", ',');
    assert ["0-0", "-1"][1..] == ["-1"] && ["-1"][1..] == [];
    assert Elements(["-1"], false) == ["-1"];
  }

  lemma FirstAndLastSelected(size: nat)
    requires size > 0
    ensures AllSelected([FromTo(0, 0), Last(1)], size) == [(0, 0), (size - 1, size - 1)]
  {
    assert [FromTo(0, 0), Last(1)][1..] == [Last(1)];
    OneRange("-1", size);
    assert [(0, 0)] + [(size - 1, size - 1)] == [(0, 0), (size - 1, size - 1)];
  }

  lemma FirstAndLastSet(size: nat)
    requires size > 0
    ensures ReadSet("0-0,-1", size) == Satisfiable([(0, 0), (size - 1, size - 1)])
  {
    FirstAndLastElements();
    FirstAndLastRead();
    FirstAndLastSelected(size);
  }

  lemma FirstAndLastRead()
    ensures ReadRanges(["0-0", "-1"]) == Some([FromTo(0, 0), Last(1)])
  {
    assert "0-0" == "0" + ['-'] + "0" && "-1" == "" + ['-'] + "1";
    SplitFirst("0", "0", '-');
    SplitPlain("0", '-');
    SplitFirst("", "1", '-');
    SplitPlain("1", '-');
    assert "0"[..0] == "" && "1"[..0] == "";
    assert ParseInt("0") == 0 && ParseInt("1") == 1;
    assert ReadByteRange("0-0") == Some(FromTo(0, 0)) && ReadByteRange("-1") == Some(Last(1));
    OneRange("-1", 0);
    assert ["0-0", "-1"][1..] == ["-1"];
    assert [FromTo(0, 0)] + [Last(1)] == [FromTo(0, 0), Last(1)];
  }

  lemma OneEquals(unit: string, text: string, size: nat)
    requires '=' !in unit && '=' !in text && IsToken(unit)
    ensures StandardRange(unit + "=" + text, size) == if Lower(unit) == "bytes" then ReadSet(text, size) else UnknownUnit
  {
    assert unit + "=" + text == unit + ['='] + text;
    SplitFirst(unit, text, '=');
    SplitPlain(text, '=');
    assert [unit, text][1..] == [text];
  }

  lemma PrefixStarts(p: string, s: string, k: nat)
    requires k <= |p|
    ensures p <= s ==> s[..k] == p[..k]
  {
  }

  lemma OtherUnitRefused(unit: string, text: string, size: nat)
    requires |unit| == 5 && unit != "bytes"
    ensures ParseRange(unit + "=" + text, size) == Invalid
  {
    var header := unit + "=" + text;
    assert header[..5] == unit && "bytes="[..5] == "bytes";
    PrefixStarts("bytes=", header, 5);
  }

  /** A unit in other letters is refused whatever follows it, though its case does not matter. */
  lemma UnitCaseRefused(text: string, size: nat)
    requires '=' !in text
    ensures ParseRange("Bytes=" + text, size) == Invalid
    ensures StandardRange("Bytes=" + text, size) == ReadSet(text, size)
  {
    assert "Bytes=" + text == "Bytes" + "=" + text;
    assert "Bytes"[0] == 'B' && "bytes"[0] == 'b';
    OtherUnitRefused("Bytes", text, size);
    assert Lower("Bytes") == "bytes";
    OneEquals("Bytes", text, size);
  }

  /** A unit the server does not know must be ignored, and is refused. */
  lemma UnknownUnitRefused(text: string, size: nat)
    requires '=' !in text
    ensures ParseRange("items=" + text, size) == Invalid
    ensures StandardRange("items=" + text, size) == UnknownUnit
  {
    assert "items=" + text == "items" + "=" + text;
    assert "items"[0] == 'i' && "bytes"[0] == 'b';
    OtherUnitRefused("items", text, size);
    assert Lower("items")[0] == 'i';
    OneEquals("items", text, size);
  }

  /** A range that starts inside the data and ends beyond it is refused instead of clipped. */
  lemma EndBeyondRefused(header: string, size: nat)
    requires RangeSpec(header).Some? && RangeSpec(header).value.0 != "" && RangeSpec(header).value.1 != ""
    requires ParseInt(RangeSpec(header).value.0) < size <= ParseInt(RangeSpec(header).value.1)
    ensures ParseRange(header, size) == Invalid
    ensures StandardRange(header, size) == Satisfiable([(ParseInt(RangeSpec(header).value.0), size - 1)])
  {
    PlainStandard(header, size);
    ServerReads(header, size);
    PlainPieces(header);
  }
}
