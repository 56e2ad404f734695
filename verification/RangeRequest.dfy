/** handleRangeRequest (internal/api/files_content.go): one byte range of a decrypted file. */
module RangeRequest {
  import opened Bytes
  import opened ContentSizes
  import opened ContentReader
  import opened SealedStreams
  import opened Wrappers

  // ---- The strings and strconv functions the handler calls ----

  /** unicode.IsSpace. */
  predicate IsSpace(c: char) {
    var n := c as int;
    9 <= n <= 13 || n in {0x20, 0x85, 0xA0, 0x1680, 0x2028, 0x2029, 0x202F, 0x205F, 0x3000} || 0x2000 <= n <= 0x200A
  }

  function TrimLeft(s: string): string {
    if s != [] && IsSpace(s[0]) then TrimLeft(s[1..]) else s
  }

  function TrimRight(s: string): string {
    if s != [] && IsSpace(s[|s| - 1]) then TrimRight(s[..|s| - 1]) else s
  }

  function TrimSpace(s: string): string {
    TrimRight(TrimLeft(s))
  }

  function TrimPrefix(s: string, prefix: string): string {
    if prefix <= s then s[|prefix|..] else s
  }

  /** The first position of c, or |s|. */
  function IndexOf(s: string, c: char): (i: nat)
    ensures i <= |s| && c !in s[..i]
    ensures i < |s| ==> s[i] == c
  {
    if s == [] || s[0] == c then 0
    else
      var j := IndexOf(s[1..], c);
      assert s[..j + 1] == [s[0]] + s[1..][..j];
      j + 1
  }

  predicate AllSpace(s: string) {
    forall i :: 0 <= i < |s| ==> IsSpace(s[i])
  }

  /** Only white space is trimmed, and all of it at either end. */
  lemma {:induction false} TrimsExactly(s: string) returns (before: string, after: string)
    ensures s == before + TrimSpace(s) + after && AllSpace(before) && AllSpace(after)
    ensures var t := TrimSpace(s); t != "" ==> !IsSpace(t[0]) && !IsSpace(t[|t| - 1])
  {
    hide IsSpace;
    before := TrimsLeft(s);
    after := TrimsRight(TrimLeft(s));
  }

  lemma {:induction false} TrimsLeft(s: string) returns (before: string)
    ensures s == before + TrimLeft(s) && AllSpace(before)
    ensures TrimLeft(s) != "" ==> !IsSpace(TrimLeft(s)[0])
  {
    hide IsSpace;
    before := "";
    if s != "" && IsSpace(s[0]) {
      var rest := TrimsLeft(s[1..]);
      before := [s[0]] + rest;
    }
  }

  lemma {:induction false} TrimsRight(s: string) returns (after: string)
    ensures s == TrimRight(s) + after && AllSpace(after)
    ensures TrimRight(s) != "" ==> !IsSpace(TrimRight(s)[|TrimRight(s)| - 1])
  {
    hide IsSpace;
    after := "";
    if s != "" && IsSpace(s[|s| - 1]) {
      var rest := TrimsRight(s[..|s| - 1]);
      after := rest + [s[|s| - 1]];
    }
  }

  predicate IsDigits(s: string) {
    s != [] && forall i :: 0 <= i < |s| ==> '0' <= s[i] <= '9'
  }

  function DigitsValue(s: string): (n: nat)
    requires forall i :: 0 <= i < |s| ==> '0' <= s[i] <= '9'
  {
    if s == [] then 0 else 10 * DigitsValue(s[..|s| - 1]) + (s[|s| - 1] as int - '0' as int)
  }

  /** strconv.ParseInt(s, 10, 64). */
  function ParseInt64(s: string): (r: Option<int>)
    ensures r.Some? ==> -MAX_INT64 - 1 <= r.value <= MAX_INT64
    ensures r.Some? && r.value < 0 ==> '-' in s
  {
    var negative := s != [] && s[0] == '-';
    var digits := if s != [] && (s[0] == '-' || s[0] == '+') then s[1..] else s;
    if !IsDigits(digits) then None
    else
      var n := DigitsValue(digits);
      if negative then (if n <= MAX_INT64 + 1 then Some(-(n as int)) else None)
      else if n <= MAX_INT64 then Some(n) else None
  }

  // ---- Byte ranges: section 2.1 of RFC 7233 ----

  datatype ByteRange = Span(first: int, last: int) | From(first: int) | Suffix(length: int)

  /** The positions of a total-byte representation that the range selects. */
  ghost predicate Selects(r: ByteRange, total: int, i: int) {
    0 <= i < total &&
    match r
    case Span(first, last) => first <= i <= last
    case From(first) => first <= i
    case Suffix(length) => total - length <= i
  }

  datatype Interval = Interval(start: int, end: int)

  /** The unparsed halves of the first range of the header. */
  function SplitHeader(header: string): (r: Option<(string, string)>)
    ensures r.Some? ==> '-' !in r.value.0
  {
    var h := TrimSpace(TrimPrefix(header, "bytes="));
    var comma := IndexOf(h, ',');
    var h' := if comma < |h| then TrimSpace(h[..comma]) else h;
    var dash := IndexOf(h', '-');
    if dash == |h'| then None else Some((h'[..dash], h'[dash + 1..]))
  }

  function ParseRange(header: string): (r: Option<ByteRange>) {
    match SplitHeader(header)
    case None => None
    case Some((left, right)) =>
      if left == "" then
        match ParseInt64(right) { case None => None case Some(n) => Some(Suffix(n)) }
      else
        match ParseInt64(left) {
          case None => None
          case Some(first) =>
            if right == "" then Some(From(first))
            else match ParseInt64(right) { case None => None case Some(last) => Some(Span(first, last)) }
        }
  }

  /** A range that starts exactly at the logical end of the file. */
  predicate AtLogicalEOF(r: ByteRange, total: int) {
    !r.Suffix? && r.first == total
  }

  /**
   * The answer to the first range of the header, the only one looked at: the interval of selected positions, or
   * nothing when none is selected; but a range that starts at the logical end of the file gets the last byte.
   */
  ghost predicate Resolves(served: Option<Interval>, header: string, total: int) {
    var r := ParseRange(header);
    && (served.Some? ==> 0 <= served.value.start <= served.value.end < total)
    && if total <= 0 || r.None? then served.None? else Picks(served, r.value, total)
  }

  ghost predicate Picks(served: Option<Interval>, r: ByteRange, total: int) {
    if AtLogicalEOF(r, total) then served == Some(Interval(total - 1, total - 1))
    else
      && (served.None? <==> forall i :: !Selects(r, total, i))
      && (served.Some? ==> forall i :: Selects(r, total, i) <==> served.value.start <= i <= served.value.end)
  }

  lemma PicksBounds(r: ByteRange, total: int, start: int, end: int)
    requires total > 0 && !AtLogicalEOF(r, total) && (!r.Suffix? ==> r.first >= 0)
    requires match r
             case Span(first, last) => start == first && end == Min(last, total - 1)
             case From(first) => start == first && end == total - 1
             case Suffix(length) => length > 0 && start == total - Min(length, total) && end == total - 1
    ensures Picks(if start >= total || start > end then None else Some(Interval(start, end)), r, total)
  {
    if start < total && start <= end {
      assert Selects(r, total, start);
    }
  }

  lemma LogicalEOFPicksLast(r: ByteRange, total: int)
    requires AtLogicalEOF(r, total) && total > 0
    ensures Picks(Some(Interval(total - 1, total - 1)), r, total)
  {
  }

  /** A first position is never negative, and a suffix that is not positive selects nothing. */
  lemma RangeSigns(header: string, total: int)
    requires ParseRange(header).Some? && total > 0
    ensures var r := ParseRange(header).value;
            && (!r.Suffix? ==> r.first >= 0)
            && (r.Suffix? && r.length <= 0 ==> Picks(None, r, total))
  {
  }

  /** The branches of the handler: which interval is served, or None for 416. */
  method ResolveRange(header: string, totalSize: int) returns (served: Option<Interval>)
    requires totalSize <= MAX_INT64
    ensures Resolves(served, header, totalSize)
  {
    hide ParseInt64, SplitHeader, Selects, Picks;
    if totalSize <= 0 {
      return None;
    }
    var parts := SplitHeader(header);
    if parts.None? {
      return None;
    }
    var (left, right) := parts.value;
    if ParseRange(header).Some? {
      RangeSigns(header, totalSize);
    }
    var start, end := 0, 0;
    if left == "" {
      var suffix := ParseInt64(right);
      if suffix.None? || suffix.value <= 0 {
        return None;
      }
      var n := suffix.value;
      if n > totalSize {
        n := totalSize;
      }
      start := totalSize - n;
      end := totalSize - 1;
    } else {
      var first := ParseInt64(left);
      if first.None? {
        return None;
      }
      start := first.value;
      if right != "" {
        var last := ParseInt64(right);
        if last.None? {
          return None;
        }
        end := last.value;
        if end >= totalSize {
          end := totalSize - 1;
        }
      } else {
        end := totalSize - 1;
      }
    }
    ghost var r := ParseRange(header).value;
    if !AtLogicalEOF(r, totalSize) {
      PicksBounds(r, totalSize, start, end);
    } else {
      LogicalEOFPicksLast(r, totalSize);
    }
    if start == totalSize && totalSize > 0 {
      start := totalSize - 1;
      end := totalSize - 1;
    }
    if start < 0 || start >= totalSize || start > end {
      return None;
    }
    served := Some(Interval(start, end));
  }

  // ---- Well-formed headers parse to the range they denote ----

  predicate AllDigits(s: string) {
    forall i :: 0 <= i < |s| ==> '0' <= s[i] <= '9'
  }

  /** Trimming keeps a prefix that ends in a non-space. */
  lemma {:induction false} TrimRightKeeps(p: string, t: string) returns (kept: nat)
    requires p != [] && !IsSpace(p[|p| - 1])
    ensures kept <= |t| && TrimRight(p + t) == p + t[..kept]
    decreases |t|
  {
    var s := p + t;
    if t == [] || !IsSpace(t[|t| - 1]) {
      kept := |t|;
      assert t[..kept] == t;
    } else {
      var t' := t[..|t| - 1];
      assert s[..|s| - 1] == p + t';
      kept := TrimRightKeeps(p, t');
      assert t'[..kept] == t[..kept];
    }
  }

  lemma {:induction false} IndexOfFirst(s: string, c: char, i: nat)
    requires i <= |s| && c !in s[..i] && (i < |s| ==> s[i] == c)
    ensures IndexOf(s, c) == i
  {
    if i > 0 {
      assert s[..i][0] == s[0] && s[..i][1..] == s[1..][..i - 1];
      IndexOfFirst(s[1..], c, i - 1);
    }
  }

  /** Trailing white space is trimmed. */
  lemma {:induction false} TrimRightDrops(p: string, after: string)
    requires p != [] && !IsSpace(p[|p| - 1]) && AllSpace(after)
    ensures TrimRight(p + after) == p
  {
    hide IsSpace;
    var s := p + after;
    if after == [] {
      assert s == p;
    } else {
      assert s[|s| - 1] == after[|after| - 1];
      assert s[..|s| - 1] == p + after[..|after| - 1];
      TrimRightDrops(p, after[..|after| - 1]);
    }
  }

  /** And leading white space. */
  lemma {:induction false} TrimLeftDrops(before: string, p: string)
    requires p != [] && !IsSpace(p[0]) && AllSpace(before)
    ensures TrimLeft(before + p) == p
  {
    hide IsSpace;
    var s := before + p;
    if before == [] {
      assert s == p;
    } else {
      assert s[0] == before[0] && s[1..] == before[1..] + p;
      TrimLeftDrops(before[1..], p);
    }
  }

  predicate IsPlain(c: char) {
    !IsSpace(c) && c != ',' && c != 'b'
  }

  /** The text of a range has neither white space nor commas. */
  lemma TextIsPlain(left: string, right: string)
    requires AllDigits(left) && AllDigits(right)
    ensures var text := left + "-" + right; forall i :: 0 <= i < |text| ==> IsPlain(text[i])
  {
  }

  lemma SpaceIsPlain(c: char)
    requires IsSpace(c)
    ensures c != ',' && c != 'b'
  {
  }

  /** A text up to the first comma, and the white space around it. */
  lemma FirstOfList(text: string, after: string, tail: string)
    requires text != [] && (forall i :: 0 <= i < |text| ==> IsPlain(text[i])) && AllSpace(after)
    requires tail == [] || tail[0] == ','
    ensures var h := TrimRight(text + (after + tail)); var comma := IndexOf(h, ',');
            (if comma < |h| then TrimSpace(h[..comma]) else h) == text
  {
    assert forall i :: 0 <= i < |after| ==> IsSpace(after[i]);
    hide IsSpace, AllSpace;
    forall i | 0 <= i < |after| ensures after[i] != ',' {
      SpaceIsPlain(after[i]);
    }
    TrimRightDrops(text, after);
    if tail == [] {
      assert after + tail == after;
      assert text[..|text|] == text;
      IndexOfFirst(text, ',', |text|);
    } else {
      FirstOfMany(text, after, tail);
    }
  }

  lemma FirstOfMany(text: string, after: string, tail: string)
    requires text != [] && (forall i :: 0 <= i < |text| ==> IsPlain(text[i])) && AllSpace(after) && ',' !in after
    requires tail != [] && tail[0] == ',' && TrimRight(text + after) == text
    ensures var h := TrimRight(text + (after + tail)); var comma := IndexOf(h, ',');
            comma < |h| && TrimSpace(h[..comma]) == text
  {
    hide IsSpace, AllSpace, TrimRight, IndexOf;
    var front := text + after + [','];
    CommaIsNoSpace();
    var kept := TrimRightKeeps(front, tail[1..]);
    assert front + tail[1..] == text + (after + tail);
    var h := front + tail[1..][..kept];
    var n := |text + after|;
    assert h[..n] == text + after && h[n] == ',';
    assert ',' !in text;
    IndexOfFirst(h, ',', n);
    assert !IsSpace((text + after)[0]);
  }

  lemma CommaIsNoSpace()
    ensures !IsSpace(',')
  {
  }

  /** The unit, which may be missing, and LEFT-RIGHT in white space, optionally followed by further ranges. */
  lemma SplitOfText(unit: string, before: string, left: string, right: string, after: string, tail: string)
    requires unit == "bytes=" || unit == ""
    requires AllDigits(left) && AllDigits(right) && AllSpace(before) && AllSpace(after)
    requires tail == [] || tail[0] == ','
    ensures SplitHeader(unit + (before + ((left + "-" + right) + (after + tail)))) == Some((left, right))
  {
    var text := left + "-" + right;
    var rest := text + (after + tail);
    TextIsPlain(left, right);
    TrimLeftDrops(before, rest);
    WithoutUnit(unit, before, rest);
    FirstOfList(text, after, tail);
    DashOfText(left, right);
    hide IsSpace, TrimLeft, TrimRight, IndexOf, AllSpace, TrimPrefix;
  }

  lemma DashOfText(left: string, right: string)
    requires AllDigits(left) && AllDigits(right)
    ensures var text := left + "-" + right;
            IndexOf(text, '-') == |left| && text[..|left|] == left && text[|left| + 1..] == right
  {
    var text := left + "-" + right;
    assert text[..|left|] == left && text[|left| + 1..] == right && text[|left|] == '-';
    IndexOfFirst(text, '-', |left|);
  }

  lemma WithoutUnit(unit: string, before: string, rest: string)
    requires unit == "bytes=" || unit == ""
    requires AllSpace(before) && rest != [] && rest[0] != 'b'
    ensures TrimPrefix(unit + (before + rest), "bytes=") == before + rest
  {
    var s := before + rest;
    assert s[0] != 'b' by {
      if before != [] {
        SpaceIsPlain(before[0]);
      }
    }
    if unit == "" {
      assert unit + s == s;
    } else {
      assert (unit + s)[|unit|..] == s;
    }
  }

  /** The header text of a range, its numbers written in any decimal digits. */
  ghost predicate Denotes(left: string, right: string, r: ByteRange) {
    && AllDigits(left) && AllDigits(right)
    && match r
       case Span(first, last) => left != [] && right != [] && DigitsValue(left) == first && DigitsValue(right) == last
       case From(first) => left != [] && right == [] && DigitsValue(left) == first
       case Suffix(length) => left == [] && right != [] && DigitsValue(right) == length
  }

  lemma ParseDigits(s: string)
    requires s != [] && AllDigits(s) && DigitsValue(s) <= MAX_INT64
    ensures ParseInt64(s) == Some(DigitsValue(s))
  {
  }

  lemma PartsDenoteRange(header: string, left: string, right: string, r: ByteRange)
    requires SplitHeader(header) == Some((left, right)) && Denotes(left, right, r)
    requires DigitsValue(left) <= MAX_INT64 && DigitsValue(right) <= MAX_INT64
    ensures ParseRange(header) == Some(r)
  {
    if left != [] {
      ParseDigits(left);
    }
    if right != [] {
      ParseDigits(right);
    }
  }

  /**
   * Every range of the standard whose numbers fit an int64 is understood, with white space around it and also
   * without the unit; later ranges of a list are ignored.
   */
  lemma SpacedHeaderParses(unit: string, before: string, left: string, right: string, after: string, tail: string,
                           r: ByteRange)
    requires unit == "bytes=" || unit == ""
    requires Denotes(left, right, r) && AllSpace(before) && AllSpace(after) && (tail == [] || tail[0] == ',')
    requires DigitsValue(left) <= MAX_INT64 && DigitsValue(right) <= MAX_INT64
    ensures ParseRange(unit + (before + ((left + "-" + right) + (after + tail)))) == Some(r)
  {
    SplitOfText(unit, before, left, right, after, tail);
    hide SplitHeader;
    PartsDenoteRange(unit + (before + ((left + "-" + right) + (after + tail))), left, right, r);
  }

  lemma WellFormedHeaderParses(left: string, right: string, tail: string, r: ByteRange)
    requires Denotes(left, right, r) && (tail == [] || tail[0] == ',')
    requires DigitsValue(left) <= MAX_INT64 && DigitsValue(right) <= MAX_INT64
    ensures ParseRange("bytes=" + (left + "-" + right + tail)) == Some(r)
  {
    SpacedHeaderParses("bytes=", "", left, right, "", tail, r);
    Unspaced(left + "-" + right, tail);
    hide ParseRange, Denotes, DigitsValue;
  }

  lemma Unspaced(text: string, tail: string)
    ensures "" + (text + ("" + tail)) == text + tail
  {
    assert "" + tail == tail;
  }

  // ---- Numbers in headers ----

  /** The usual decimal text of a number: the digits of n / 10, then n % 10. */
  function Decimal(n: nat): (s: string) {
    if n < 10 then [DigitChar(n)] else Decimal(n / 10) + [DigitChar(n % 10)]
  }

  function DigitChar(d: nat): (c: char)
    requires d < 10
    ensures '0' <= c <= '9' && c as int == '0' as int + d
  {
    ('0' as int + d) as char
  }

  function LeadingZeros(k: nat): (s: string) {
    seq(k, _ => '0')
  }

  /** One more digit multiplies by ten. */
  lemma DigitsAppend(s: string, d: nat)
    requires AllDigits(s) && d < 10
    ensures var t := s + [DigitChar(d)]; AllDigits(t) && DigitsValue(t) == 10 * DigitsValue(s) + d
  {
    var t := s + [DigitChar(d)];
    assert t[..|t| - 1] == s && t[|t| - 1] == DigitChar(d);
  }

  lemma {:induction false} ZerosValue(k: nat)
    ensures AllDigits(LeadingZeros(k)) && DigitsValue(LeadingZeros(k)) == 0
  {
    if k > 0 {
      ZerosValue(k - 1);
      assert LeadingZeros(k)[..k - 1] == LeadingZeros(k - 1);
    }
  }

  /** Digits are read in base ten, with any number of leading zeros. */
  lemma {:induction false} DecimalValue(k: nat, n: nat)
    ensures var s := LeadingZeros(k) + Decimal(n); AllDigits(s) && DigitsValue(s) == n
    decreases n
  {
    hide DigitsValue, AllDigits, LeadingZeros;
    if n < 10 {
      ZerosValue(k);
      DigitsAppend(LeadingZeros(k), n);
    } else {
      DecimalValue(k, n / 10);
      DigitsAppend(LeadingZeros(k) + Decimal(n / 10), n % 10);
      Associates(LeadingZeros(k), Decimal(n / 10), [DigitChar(n % 10)]);
    }
  }

  lemma Associates(a: string, b: string, c: string)
    ensures a + (b + c) == (a + b) + c
  {
  }

  /** The text of a range with its numbers in decimal, each after any number of zeros. */
  function RangeText(r: ByteRange, zeros: nat, moreZeros: nat): (s: string)
    requires match r
             case Span(first, last) => first >= 0 && last >= 0
             case From(first) => first >= 0
             case Suffix(length) => length >= 0
  {
    match r
    case Span(first, last) => LeadingZeros(zeros) + Decimal(first) + "-" + (LeadingZeros(moreZeros) + Decimal(last))
    case From(first) => LeadingZeros(zeros) + Decimal(first) + "-"
    case Suffix(length) => "-" + (LeadingZeros(zeros) + Decimal(length))
  }

  /** A header that writes a range's numbers in decimal is understood as that range, alone or first of a list. */
  lemma DecimalHeaderParses(r: ByteRange, zeros: nat, moreZeros: nat, tail: string)
    requires match r
             case Span(first, last) => 0 <= first <= MAX_INT64 && 0 <= last <= MAX_INT64
             case From(first) => 0 <= first <= MAX_INT64
             case Suffix(length) => 0 <= length <= MAX_INT64
    requires tail == [] || tail[0] == ','
    ensures ParseRange("bytes=" + (RangeText(r, zeros, moreZeros) + tail)) == Some(r)
  {
    match r
    case Span(first, last) =>
      DecimalValue(zeros, first);
      DecimalValue(moreZeros, last);
      DecimalNotEmpty(first);
      DecimalNotEmpty(last);
      hide ParseRange, DigitsValue, Decimal, LeadingZeros, AllDigits;
      WellFormedHeaderParses(LeadingZeros(zeros) + Decimal(first), LeadingZeros(moreZeros) + Decimal(last), tail, r);
    case From(first) =>
      DecimalValue(zeros, first);
      DecimalNotEmpty(first);
      EmptyDigits();
      hide ParseRange, DigitsValue, Decimal, LeadingZeros, AllDigits;
      WellFormedHeaderParses(LeadingZeros(zeros) + Decimal(first), "", tail, r);
      SameText(LeadingZeros(zeros) + Decimal(first), tail);
    case Suffix(length) =>
      DecimalValue(zeros, length);
      DecimalNotEmpty(length);
      EmptyDigits();
      hide ParseRange, DigitsValue, Decimal, LeadingZeros, AllDigits;
      WellFormedHeaderParses("", LeadingZeros(zeros) + Decimal(length), tail, r);
      SameSuffix(LeadingZeros(zeros) + Decimal(length), tail);
  }

  /** Numbers are read in base ten, with a sign or without, and refused exactly when they do not fit an int64. */
  lemma ParsesDecimal(zeros: nat, n: nat)
    ensures var s := LeadingZeros(zeros) + Decimal(n);
            && ParseInt64(s) == ParseInt64("+" + s) == (if n <= 0x7FFF_FFFF_FFFF_FFFF then Some(n) else None)
            && ParseInt64("-" + s) == if n <= 0x8000_0000_0000_0000 then Some(-(n as int)) else None
  {
    DecimalValue(zeros, n);
    DecimalNotEmpty(n);
    var s := LeadingZeros(zeros) + Decimal(n);
    hide DigitsValue, Decimal, LeadingZeros;
    assert s != "" && s[0] != '-' && s[0] != '+';
    assert ("+" + s)[1..] == s && ("-" + s)[1..] == s;
  }

  lemma DecimalNotEmpty(n: nat)
    ensures Decimal(n) != ""
  {
  }

  lemma EmptyDigits()
    ensures AllDigits("") && DigitsValue("") == 0
  {
  }

  lemma SameText(left: string, tail: string)
    ensures left + "-" + "" + tail == left + "-" + tail
  {
    assert left + "-" + "" == left + "-";
  }

  lemma SameSuffix(right: string, tail: string)
    ensures "" + "-" + right + tail == "-" + right + tail
  {
    assert "" + "-" == "-";
  }

  // ---- Lists of ranges ----

  /** One range of a list: its text, with optional white space before it, and what it denotes. */
  datatype ListedRange = ListedRange(space: string, left: string, right: string, range: ByteRange)

  /** The rest of a list after its first range. */
  function TailText(later: seq<ListedRange>): (text: string) {
    if later == [] then ""
    else "," + later[0].space + later[0].left + "-" + later[0].right + TailText(later[1..])
  }

  ghost predicate WellFormed(x: ListedRange) {
    Denotes(x.left, x.right, x.range) && forall i :: 0 <= i < |x.space| ==> IsSpace(x.space[i])
  }

  ghost predicate Satisfiable(r: ByteRange, total: int) {
    exists i :: Selects(r, total, i)
  }

  ghost predicate AllUnsatisfiable(ranges: seq<ListedRange>, total: int) {
    forall n :: 0 <= n < |ranges| ==> !Satisfiable(ranges[n].range, total)
  }

  /** The interval is exactly what the n-th range selects, and no range before it selects anything. */
  ghost predicate IsFirstSatisfiable(served: Interval, ranges: seq<ListedRange>, total: int, n: nat)
    requires n < |ranges|
  {
    && Satisfiable(ranges[n].range, total) && AllUnsatisfiable(ranges[..n], total)
    && Selected(served, ranges[n].range, total)
  }

  /** The promised answer: exactly what the first satisfiable range of the list selects, or nothing. */
  ghost predicate ServesFirstSatisfiable(served: Option<Interval>, ranges: seq<ListedRange>, total: int) {
    match served
    case None => AllUnsatisfiable(ranges, total)
    case Some(i) => SelectedByFirstSatisfiable(i, ranges, total)
  }

  ghost predicate SelectedByFirstSatisfiable(i: Interval, ranges: seq<ListedRange>, total: int) {
    exists n: nat :: n < |ranges| && IsFirstSatisfiable(i, ranges, total, n)
  }

  ghost predicate Selected(i: Interval, r: ByteRange, total: int) {
    forall x :: Selects(r, total, x) <==> i.start <= x <= i.end
  }

  /** On a list whose numbers fit, the header's answer is the one to its first range. */
  lemma ListParses(first: ListedRange, later: seq<ListedRange>)
    requires WellFormed(first) && DigitsValue(first.left) <= MAX_INT64 && DigitsValue(first.right) <= MAX_INT64
    ensures ParseRange("bytes=" + (first.left + "-" + first.right + TailText(later))) == Some(first.range)
  {
    WellFormedHeaderParses(first.left, first.right, TailText(later), first.range);
  }

  /** What the answer to the first range is for the list. */
  lemma FirstAnswersList(served: Option<Interval>, ranges: seq<ListedRange>, total: int)
    requires ranges != [] && Picks(served, ranges[0].range, total) && !AtLogicalEOF(ranges[0].range, total)
    ensures Satisfiable(ranges[0].range, total) ==> ServesFirstSatisfiable(served, ranges, total)
    ensures !Satisfiable(ranges[0].range, total) ==> served == None
  {
    hide Selects;
    if Satisfiable(ranges[0].range, total) {
      assert ranges[..0] == [];
      assert IsFirstSatisfiable(served.value, ranges, total, 0);
    }
  }

  lemma NoneSatisfiable(first: ListedRange, later: seq<ListedRange>, total: int)
    ensures AllUnsatisfiable([first] + later, total)
            <==> !Satisfiable(first.range, total) && AllUnsatisfiable(later, total)
  {
    hide Satisfiable;
    var ranges := [first] + later;
    assert ranges[0] == first && forall n :: 0 <= n < |later| ==> ranges[n + 1] == later[n];
    assert forall n :: 0 < n < |ranges| ==> ranges[n] == later[n - 1];
  }

  /**
   * Exactly when the handler serves the first satisfiable range of a well-formed list, as its comment says, the
   * case of a first range at the logical end of the file aside: when the first range is satisfiable, or no
   * later one is.
   */
  lemma FirstSatisfiableExactly(first: ListedRange, later: seq<ListedRange>, served: Option<Interval>, total: int)
    requires WellFormed(first) && DigitsValue(first.left) <= MAX_INT64 && DigitsValue(first.right) <= MAX_INT64
    requires total > 0 && !AtLogicalEOF(first.range, total)
    requires Resolves(served, "bytes=" + (first.left + "-" + first.right + TailText(later)), total)
    ensures ServesFirstSatisfiable(served, [first] + later, total)
            <==> Satisfiable(first.range, total) || AllUnsatisfiable(later, total)
  {
    hide Picks, ParseRange, Satisfiable, AllUnsatisfiable, WellFormed, TailText;
    ListParses(first, later);
    var ranges := [first] + later;
    assert ranges[0] == first;
    FirstAnswersList(served, ranges, total);
    NoneSatisfiable(first, later, total);
  }

  /** What section 2.1 of RFC 7233 has for a range: the selected positions, or nothing when there are none. */
  ghost predicate StandardAnswer(served: Option<Interval>, r: ByteRange, total: int) {
    match served
    case None => !Satisfiable(r, total)
    case Some(i) => Satisfiable(r, total) && Selected(i, r, total)
  }

  lemma NothingAtLogicalEnd(r: ByteRange, total: int)
    requires AtLogicalEOF(r, total)
    ensures !Satisfiable(r, total)
  {
  }

  /** The handler's answer to the first range is the standard's exactly when the range is not at the logical end. */
  lemma DeviatesExactlyAtLogicalEnd(header: string, r: ByteRange, served: Option<Interval>, total: int)
    requires total > 0 && ParseRange(header) == Some(r) && Resolves(served, header, total)
    ensures StandardAnswer(served, r, total) <==> !AtLogicalEOF(r, total)
  {
    hide ParseRange, Selects;
    if AtLogicalEOF(r, total) {
      NothingAtLogicalEnd(r, total);
    } else if served.Some? {
      assert Selects(r, total, served.value.start);
    }
  }

  lemma FirstSatisfiableLater(i: Interval, first: ListedRange, later: seq<ListedRange>, total: int, n: nat)
    requires n < |later| && !Satisfiable(first.range, total)
    ensures IsFirstSatisfiable(i, [first] + later, total, n + 1) <==> IsFirstSatisfiable(i, later, total, n)
  {
    hide Satisfiable, Selected;
    var ranges := [first] + later;
    assert ranges[n + 1] == later[n] && ranges[..n + 1] == [first] + later[..n];
    NoneSatisfiable(first, later[..n], total);
  }

  /** An unsatisfiable first range does not matter. */
  lemma SkipFirst(i: Interval, first: ListedRange, later: seq<ListedRange>, total: int)
    requires !Satisfiable(first.range, total)
    ensures SelectedByFirstSatisfiable(i, [first] + later, total) <==> SelectedByFirstSatisfiable(i, later, total)
  {
    var ranges := [first] + later;
    assert ranges[0] == first;
    if SelectedByFirstSatisfiable(i, later, total) {
      var n: nat :| n < |later| && IsFirstSatisfiable(i, later, total, n);
      FirstSatisfiableLater(i, first, later, total, n);
      assert IsFirstSatisfiable(i, ranges, total, n + 1);
    }
    if SelectedByFirstSatisfiable(i, ranges, total) {
      var n: nat :| n < |ranges| && IsFirstSatisfiable(i, ranges, total, n);
      assert n > 0;
      FirstSatisfiableLater(i, first, later, total, n - 1);
      assert IsFirstSatisfiable(i, later, total, n - 1);
    }
  }

  /**
   * And for a list whose first range is at the logical end, where the last byte is served: the first satisfiable
   * range is served if and only if it comes later and selects just that byte.
   */
  lemma LogicalEndFirstExactly(first: ListedRange, later: seq<ListedRange>, served: Option<Interval>, total: int)
    requires WellFormed(first) && DigitsValue(first.left) <= MAX_INT64 && DigitsValue(first.right) <= MAX_INT64
    requires total > 0 && AtLogicalEOF(first.range, total)
    requires Resolves(served, "bytes=" + (first.left + "-" + first.right + TailText(later)), total)
    ensures ServesFirstSatisfiable(served, [first] + later, total)
            <==> SelectedByFirstSatisfiable(Interval(total - 1, total - 1), later, total)
  {
    hide ParseRange, SelectedByFirstSatisfiable, WellFormed, TailText, AllUnsatisfiable;
    ListParses(first, later);
    NothingAtLogicalEnd(first.range, total);
    SkipFirst(Interval(total - 1, total - 1), first, later, total);
  }

  /** The handler answers "bytes=9-,0-0" on a file of five bytes with 416, although 0-0 selects the first byte. */
  lemma LaterRangeIsIgnored(served: Option<Interval>)
    requires Resolves(served, "bytes=9-,0-0", 5)
    ensures served == None && Satisfiable(Span(0, 0), 5)
  {
    FirstOfTwo();
    hide ParseRange;
    assert Selects(Span(0, 0), 5, 0);
  }

  lemma FirstOfTwo()
    ensures ParseRange("bytes=9-,0-0") == Some(From(9))
  {
    hide ParseRange;
    assert DigitsValue("9") == 9;
    HeaderText("bytes=9-,0-0", ",0-0");
    WellFormedHeaderParses("9", "", ",0-0", From(9));
  }

  lemma HeaderText(header: string, tail: string)
    requires tail == ",0-0" && header == "bytes=9-,0-0"
    ensures header == "bytes=" + ("9" + "-" + "" + tail)
  {
  }

  // ---- Serving the interval ----

  datatype Reply = NotSatisfiable | SeekFailed | Partial(start: int, end: int, body: ByteString)

  /**
   * io.Copy from the reader through a LimitReader of the given size, in reads of arbitrary positive
   * sizes; complete says that the limit was reached.
   */
  method CopyLimited(reader: DecryptingReader, limit: nat) returns (out: ByteString, complete: bool)
    requires reader.Valid()
    modifies reader, reader.r
    ensures reader.Valid() && |out| <= limit && reader.delivered == old(reader.delivered) + out
    ensures complete <==> |out| == limit
    ensures old(reader.Genuine()) ==> reader.Genuine() && (complete || reader.delivered == reader.Wanted())
  {
    out := [];
    while |out| < limit
      invariant reader.Valid() && |out| <= limit && reader.delivered == old(reader.delivered) + out
      invariant old(reader.Genuine()) ==> reader.Genuine()
      decreases limit - |out|
    {
      var size: nat :| 0 < size <= limit - |out|;
      var piece, err := reader.Read(size);
      out := out + piece;
      if err != NoError {
        return out, false;
      }
    }
    complete := true;
  }

  /** The bytes of the interval that the plaintext has: all of them when it ends inside the plaintext. */
  function Slice(plain: ByteString, i: Interval): ByteString
    requires 0 <= i.start <= i.end
  {
    plain[Min(i.start, |plain|)..Min(i.end + 1, |plain|)]
  }

  /** Bytes skip.. of a prefix of the chunk-aligned tail are bytes start.. of the plaintext. */
  lemma BodyOfPrefix(plain: ByteString, served: Interval, wanted: ByteString, skip: nat, body: ByteString)
    requires 0 <= served.start <= served.end && skip <= served.start
    requires wanted == plain[Min(served.start - skip, |plain|)..] && skip <= |wanted| && body <= wanted[skip..]
    requires |body| <= served.end - served.start + 1
    ensures body <= Slice(plain, served)
    ensures served.end < |plain| && (|body| == served.end - served.start + 1 || skip + |body| == |wanted|) ==>
              body == Slice(plain, served)
  {
    if served.start <= |plain| {
      assert wanted[skip..] == plain[served.start..];
    }
  }

  /** Discards skip bytes of a fresh reader, then copies up to limit bytes. */
  method SkipAndCopy(reader: DecryptingReader, skip: nat, limit: nat) returns (body: ByteString, ok: bool)
    requires reader.Valid() && reader.delivered == []
    modifies reader, reader.r
    ensures ok ==> skip <= |reader.Wanted()| && body <= reader.Wanted()[skip..] && |body| <= limit
    ensures old(reader.Genuine()) && skip <= |reader.Wanted()| ==>
              ok && (|body| == limit || skip + |body| == |reader.Wanted()|)
  {
    if skip > 0 {
      var discarded, complete := CopyLimited(reader, skip);
      if !complete {
        return [], false;
      }
    }
    ghost var skipped := reader.delivered;
    var complete;
    body, complete := CopyLimited(reader, limit);
    reader.DeliversOnlyPrefix();
    assert body == (skipped + body)[skip..];
    ok := true;
  }

  /** Whatever the file holds and however long it claims to be, only the plaintext's bytes of the interval go out. */
  method ServeInterval(file: Source, gcm: Aead, headerNonce: ByteString, served: Interval,
                       ghost plain: ByteString, ghost header: ByteString, ghost nonces: seq<Nonce>)
    returns (reply: Reply)
    requires 0 <= served.start <= served.end < MAX_INT64 && |plain| <= MAX_INT64
    requires OpensOnly(gcm, headerNonce, plain)
    modifies file
    ensures reply != NotSatisfiable
    ensures reply.Partial? ==>
              reply.start == served.start && reply.end == served.end && reply.body <= Slice(plain, served)
    ensures Holds(file, gcm, headerNonce, plain, header, nonces) && served.end < |plain|
            ==> reply == Partial(served.start, served.end, Slice(plain, served))
  {
    var pos := PlaintextOffset2CipherOffset(served.start);
    OffsetLandsOnChunk(served.start + 1, served.start);
    if served.end < |plain| {
      OffsetLandsOnChunk(|plain|, served.start);
    }
    file.Seek(pos.cipherOffset);
    var reader := new DecryptingReader(file, gcm, headerNonce, pos.chunkIndex, plain, header, nonces);
    ghost var wanted := reader.Wanted();
    var body, ok := SkipAndCopy(reader, pos.skipBytes, served.end - served.start + 1);
    if !ok {
      return SeekFailed;
    }
    BodyOfPrefix(plain, served, wanted, pos.skipBytes, body);
    reply := Partial(served.start, served.end, body);
  }

  /** The file is a reliable one that holds the writer's output for the plaintext. */
  ghost predicate Holds(file: Source, gcm: Aead, headerNonce: ByteString,
                        plain: ByteString, header: ByteString, nonces: seq<Nonce>)
  {
    && file.reliable && gcm.Expands() && OpensChunks(gcm, headerNonce, plain)
    && |header| == HEADER_SIZE && PAYLOAD * |nonces| >= |plain|
    && file.file == header + SealStream(gcm, headerNonce, nonces, plain, 0)
  }

  /** The reply that carries exactly the plaintext of the resolved interval. */
  ghost function ReplyFor(served: Option<Interval>, plain: ByteString): Reply
    requires served.Some? ==> 0 <= served.value.start <= served.value.end < |plain|
  {
    match served
    case None => NotSatisfiable
    case Some(i) => Partial(i.start, i.end, Slice(plain, i))
  }

  ghost predicate Answers(reply: Reply, rangeHeader: string, plain: ByteString) {
    exists served :: Resolves(served, rangeHeader, |plain|) && reply == ReplyFor(served, plain)
  }

  /** The whole request: resolve the header against the size the file announces, then serve. */
  method HandleRangeRequest(file: Source, gcm: Aead, headerNonce: ByteString, totalSize: int, rangeHeader: string,
                            ghost plain: ByteString, ghost header: ByteString, ghost nonces: seq<Nonce>)
    returns (reply: Reply)
    requires totalSize <= MAX_INT64 && |plain| <= MAX_INT64 && OpensOnly(gcm, headerNonce, plain)
    modifies file
    ensures reply.Partial? ==>
              && Resolves(Some(Interval(reply.start, reply.end)), rangeHeader, totalSize)
              && reply.body <= Slice(plain, Interval(reply.start, reply.end))
    ensures Holds(file, gcm, headerNonce, plain, header, nonces) && totalSize == |plain| ==>
              Answers(reply, rangeHeader, plain)
  {
    var served := ResolveRange(rangeHeader, totalSize);
    hide Picks, ParseRange;
    if served.None? {
      reply := NotSatisfiable;
    } else {
      reply := ServeInterval(file, gcm, headerNonce, served.value, plain, header, nonces);
    }
    assert Holds(file, gcm, headerNonce, plain, header, nonces) && totalSize == |plain| ==>
             reply == ReplyFor(served, plain);
  }
}
