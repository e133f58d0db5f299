/** Byte ranges of static files: the single-range parser, what it accepts, and the response headers
    and body chosen for it. Ranges follow section 2.1 of RFC 7233. */
module RangeHeader {
  import opened Wrappers
  import opened Decimal

  // ---------- the parser ----------

  const UNIT := "bytes="

  /** Index of the first c, or the length. */
  function Find(s: string, c: char): (i: nat)
    ensures i <= |s| && (i < |s| ==> s[i] == c) && forall j :: 0 <= j < i ==> s[j] != c
  {
    if s == "" || s[0] == c then 0 else 1 + Find(s[1..], c)
  }

  /** parseUnsignedSize. */
  function Unsigned(s: string): Option<nat> {
    match ReadSize(s) case Size(v) => Some(v) case _ => None
  }

  /** The part of parseSingleRange after the text is split: first byte, last byte or suffix length. */
  function Interval(first: string, last: string, size: nat): Option<(nat, nat)> {
    if first == "" && last == "" then None
    else if first == "" then
      match Unsigned(last)
      case None => None
      case Some(suffix) =>
        if suffix == 0 then None
        else
          var count := if suffix < size then suffix else size;
          Some((size - count, count))
    else
      match Unsigned(first)
      case None => None
      case Some(start) =>
        if start >= size then None
        else if last == "" then Some((start, size - start))
        else
          match Unsigned(last)
          case None => None
          case Some(end) =>
            if end < start then None else Some((start, (if end >= size then size - 1 else end) - start + 1))
  }

  /** parseSingleRange: offset and count. */
  method ParseSingleRange(value: string, size: nat) returns (r: Option<(nat, nat)>)
    ensures r.Some? ==> 1 <= r.value.1 && r.value.0 + r.value.1 <= size
    ensures r == ParseRange(value, size)
  {
    if size == 0 || !(UNIT <= value) {
      return None;
    }
    var range := value[|UNIT|..];
    if Find(range, ',') < |range| {
      return None;
    }
    var separator := Find(range, '-');
    if separator == |range| || Find(range[separator + 1..], '-') < |range| - separator - 1 {
      return None;
    }
    hide Interval;
    r := ParseInterval(range[..separator], range[separator + 1..], size);
  }

  method ParseInterval(first: string, last: string, size: nat) returns (r: Option<(nat, nat)>)
    requires size > 0
    ensures r.Some? ==> 1 <= r.value.1 && r.value.0 + r.value.1 <= size
    ensures r == Interval(first, last, size)
  {
    hide ReadSize;
    if first == "" && last == "" {
      return None;
    }
    if first == "" {
      var suffix := ParseSize(last);
      if !suffix.Size? || suffix.value == 0 {
        return None;
      }
      var count := if suffix.value < size then suffix.value else size;
      return Some((size - count, count));
    }
    var start := ParseSize(first);
    if !start.Size? || start.value >= size {
      return None;
    }
    var end := size - 1;
    if last != "" {
      var asked := ParseSize(last);
      if !asked.Size? || asked.value < start.value {
        return None;
      }
      if asked.value < size {
        end := asked.value;
      }
    }
    return Some((start.value, end - start.value + 1));
  }

  function ParseRange(value: string, size: nat): Option<(nat, nat)> {
    if size == 0 || !(UNIT <= value) then None
    else
      var range := value[|UNIT|..];
      var dash := Find(range, '-');
      if ',' in range || dash == |range| || '-' in range[dash + 1..] then None
      else Interval(range[..dash], range[dash + 1..], size)
  }

  // ---------- numerals ----------

  /** The digit loop accepts exactly the decimal numerals below 2^64. */
  lemma UnsignedExactly(s: string)
    ensures Unsigned(s).Some? <==> s != "" && AllDigits(s) && Value(s) < SIZE_LIMIT
    ensures Unsigned(s).Some? ==> Unsigned(s).value == Value(s)
  {
    if AllDigits(s) {
      assert s[..|s|] == s;
      DigitPrefixUnique(s, |s|);
    }
  }

  // ---------- what a header asks for ----------

  /** The header is one range with these numerals, either of which may be missing. */
  predicate Asks(value: string, first: string, last: string) {
    value == UNIT + first + "-" + last && AllDigits(first) && AllDigits(last) && (first != "" || last != "")
  }

  predicate NumeralsFit(first: string, last: string)
    requires AllDigits(first) && AllDigits(last)
  {
    Value(first) < SIZE_LIMIT && Value(last) < SIZE_LIMIT
  }

  /** A range whose last byte precedes its first is invalid. */
  predicate Ordered(first: string, last: string)
    requires AllDigits(first) && AllDigits(last)
  {
    first != "" && last != "" ==> Value(first) <= Value(last)
  }

  /** Byte i of a file of this size is asked for: from first to last, from first on, or among the
      last so many. */
  predicate Wants(first: string, last: string, size: nat, i: int)
    requires AllDigits(first) && AllDigits(last)
  {
    && 0 <= i < size
    && if first == "" then i >= size - Value(last) else Value(first) <= i && (last == "" || i <= Value(last))
  }

  predicate Satisfiable(first: string, last: string, size: nat)
    requires AllDigits(first) && AllDigits(last)
  {
    size > 0 && if first == "" then Value(last) > 0 else Value(first) < size
  }

  lemma SatisfiableMeans(first: string, last: string, size: nat)
    requires AllDigits(first) && AllDigits(last) && Ordered(first, last) && (first != "" || last != "")
    ensures Satisfiable(first, last, size) <==> exists i :: Wants(first, last, size, i)
  {
    if Satisfiable(first, last, size) {
      assert Wants(first, last, size, if first == "" then size - 1 else Value(first));
    }
  }

  lemma FindIs(s: string, c: char, i: nat)
    requires i <= |s| && (i < |s| ==> s[i] == c) && forall j :: 0 <= j < i ==> s[j] != c
    ensures Find(s, c) == i
  {
    var f := Find(s, c);
  }

  lemma DigitsHaveNo(s: string, c: char)
    requires AllDigits(s) && !IsDigit(c)
    ensures c !in s
  {
  }

  /** The header splits at its dash. */
  lemma AsksSplit(value: string, first: string, last: string, size: nat)
    requires Asks(value, first, last) && size > 0
    ensures ParseRange(value, size) == Interval(first, last, size)
  {
    hide Interval, Find;
    var range := first + "-" + last;
    assert value == UNIT + range && value[|UNIT|..] == range;
    DigitsHaveNo(first, '-');
    DigitsHaveNo(last, '-');
    DigitsHaveNo(first, ',');
    DigitsHaveNo(last, ',');
    assert forall j :: 0 <= j < |first| ==> range[j] == first[j];
    FindIs(range, '-', |first|);
    assert range[..|first|] == first && range[|first| + 1..] == last;
    assert ',' !in range;
  }

  lemma IntervalNeedsDigits(first: string, last: string, size: nat)
    requires Interval(first, last, size).Some?
    ensures AllDigits(first) && AllDigits(last) && (first != "" || last != "")
  {
    UnsignedExactly(first);
    UnsignedExactly(last);
    hide Unsigned;
  }

  lemma SplitAsks(value: string, size: nat) returns (first: string, last: string)
    requires ParseRange(value, size).Some?
    ensures Asks(value, first, last) && size > 0
  {
    hide Interval, Find;
    var range := value[|UNIT|..];
    var dash := Find(range, '-');
    first, last := range[..dash], range[dash + 1..];
    IntervalNeedsDigits(first, last, size);
    assert range == first + "-" + last;
    assert value == UNIT + range;
  }

  lemma IntervalExact(first: string, last: string, size: nat)
    requires AllDigits(first) && AllDigits(last) && (first != "" || last != "") && size > 0
    ensures Interval(first, last, size).Some? <==>
            NumeralsFit(first, last) && Ordered(first, last) && Satisfiable(first, last, size)
    ensures Interval(first, last, size).Some? ==>
              var (offset, count) := Interval(first, last, size).value;
              && 1 <= count && offset + count <= size
              && forall i :: offset <= i < offset + count <==> Wants(first, last, size, i)
  {
    UnsignedExactly(first);
    UnsignedExactly(last);
    assert Value("") == 0;
    hide Unsigned, Value;
  }

  /** A header is accepted exactly when it is a single byte range whose numerals fit a size_t, in
      order, with a byte of the file among those asked for. */
  lemma AcceptsExactly(value: string, size: nat)
    ensures ParseRange(value, size).Some? <==>
            exists first, last ::
              && Asks(value, first, last) && NumeralsFit(first, last) && Ordered(first, last)
              && exists i :: Wants(first, last, size, i)
  {
    hide ParseRange, Interval;
    if ParseRange(value, size).Some? {
      var first, last := SplitAsks(value, size);
      AsksSplit(value, first, last, size);
      IntervalExact(first, last, size);
      SatisfiableMeans(first, last, size);
      hide Asks, NumeralsFit, Ordered, Wants, Satisfiable;
      assert Asks(value, first, last);
    }
    if first, last :|
      && Asks(value, first, last) && NumeralsFit(first, last) && Ordered(first, last)
      && exists i :: Wants(first, last, size, i)
    {
      SatisfiableMeans(first, last, size);
      AsksSplit(value, first, last, size);
      IntervalExact(first, last, size);
    }
  }

  /** The chosen interval is the requested range clipped to the file: it holds exactly the file's
      bytes that were asked for, and at least one. */
  lemma ChoosesClippedRange(value: string, first: string, last: string, size: nat)
    requires Asks(value, first, last) && ParseRange(value, size).Some?
    ensures var (offset, count) := ParseRange(value, size).value;
            && 1 <= count && offset + count <= size
            && forall i :: offset <= i < offset + count <==> Wants(first, last, size, i)
  {
    assert size > 0;
    AsksSplit(value, first, last, size);
    hide ParseRange;
    IntervalExact(first, last, size);
  }

  /** A last byte of 2^64 is refused although it asks for the whole of every file. */
  lemma HugeNumeralRefused(size: nat)
    requires size > 0
    ensures var last := Print(SIZE_LIMIT);
            && Asks(UNIT + "0" + "-" + last, "0", last) && Ordered("0", last)
            && (size <= SIZE_LIMIT ==> forall i :: 0 <= i < size ==> Wants("0", last, size, i))
            && ParseRange(UNIT + "0" + "-" + last, size) == None
  {
    var last := Print(SIZE_LIMIT);
    PrintDigits(SIZE_LIMIT);
    assert Value("0") == 0 by { assert "0"[..0] == ""; }
    hide Print, Value, ParseRange, Interval;
    AsksSplit(UNIT + "0" + "-" + last, "0", last, size);
    IntervalExact("0", last, size);
  }

  // ---------- the response ----------

  datatype Plan = Plan(status: nat, size: nat, offset: nat, count: nat, partial: bool)

  /** The range part of prepareInRoot; an absent header is the empty string. */
  function Prepared(range: string, size: nat): Plan {
    if range == "" then Plan(200, size, 0, size, false)
    else
      match ParseRange(range, size)
      case None => Plan(416, size, 0, size, false)
      case Some((offset, count)) => Plan(206, size, offset, count, true)
  }

  /** sent is the slice of the file that goes out as body. */
  datatype Response = Response(status: nat, contentRange: Option<string>, contentLength: Option<string>, sent: string)

  /** populateResponse for a readable file; large files are sent from disk, small ones from a copy,
      by the same offset and count. */
  function Populated(plan: Plan, file: string, isHead: bool): Response
    requires |file| == plan.size && plan.offset + plan.count <= plan.size && (plan.partial ==> plan.count > 0)
  {
    if plan.status == 416 then Response(416, Some("bytes */" + Print(plan.size)), None, "")
    else
      Response(plan.status,
               if plan.partial then
                 Some("bytes " + Print(plan.offset) + "-" + Print(plan.offset + plan.count - 1) + "/"
                      + Print(plan.size))
               else None,
               Some(Print(plan.count)),
               if isHead then "" else file[plan.offset..plan.offset + plan.count])
  }

  predicate Spells(a: string, n: nat) { a != "" && AllDigits(a) && Value(a) == n }

  predicate AnnouncesWith(text: string, a: string, b: string, c: string, first: nat, last: nat, size: nat) {
    text == "bytes " + a + "-" + b + "/" + c && Spells(a, first) && Spells(b, last) && Spells(c, size)
  }

  /** Content-Range in the form of section 4.2 of RFC 7233, with these numbers. */
  ghost predicate Announces(text: string, first: nat, last: nat, size: nat) {
    exists a, b, c :: AnnouncesWith(text, a, b, c, first, last, size)
  }

  /** A range request answered with 206 announces, measures and sends the same bytes: those of the
      file that the header asked for. */
  lemma PartialResponseAgrees(value: string, first: string, last: string, file: string)
    requires Asks(value, first, last) && ParseRange(value, |file|).Some?
    ensures var plan := Prepared(value, |file|);
            && plan.status == 206 && plan.offset + plan.count <= |file| && plan.count > 0
            && var r := Populated(plan, file, false);
            && r.contentRange.Some? && Announces(r.contentRange.value, plan.offset, plan.offset + |r.sent| - 1, |file|)
            && r.contentLength.Some? && AllDigits(r.contentLength.value) && Value(r.contentLength.value) == |r.sent|
            && (forall i :: plan.offset <= i < plan.offset + |r.sent| <==> Wants(first, last, |file|, i))
            && (forall k :: 0 <= k < |r.sent| ==> r.sent[k] == file[plan.offset + k])
  {
    hide ParseRange, Print, Wants, Value, Announces;
    var size := |file|;
    ChoosesClippedRange(value, first, last, size);
    var plan := Prepared(value, size);
    PrintDigits(plan.count);
    PrintedAnnounces(plan.offset, plan.offset + plan.count - 1, size);
    var r := Populated(plan, file, false);
    assert |r.sent| == plan.count;
  }

  // ---------- the other responses ----------

  /** A request without a range is answered with the whole file and its length. */
  lemma WholeResponse(file: string)
    ensures var r := Populated(Prepared("", |file|), file, false);
            && r.status == 200 && r.sent == file && r.contentRange.None?
            && r.contentLength.Some? && Spells(r.contentLength.value, |file|)
  {
    PrintDigits(|file|);
    assert file[0..|file|] == file;
    hide Print, Value;
  }

  predicate DeniesWith(text: string, c: string, size: nat) { text == "bytes */" + c && Spells(c, size) }

  /** The unsatisfied form of Content-Range in section 4.2 of RFC 7233. */
  ghost predicate Denies(text: string, size: nat) { exists c :: DeniesWith(text, c, size) }

  /** A range that is not accepted is answered with 416, the size of the file and nothing of it. */
  lemma RefusedRangeResponse(value: string, file: string, isHead: bool)
    requires value != "" && ParseRange(value, |file|).None?
    ensures var r := Populated(Prepared(value, |file|), file, isHead);
            && r.status == 416 && r.sent == "" && r.contentLength.None?
            && r.contentRange.Some? && Denies(r.contentRange.value, |file|)
  {
    PrintDigits(|file|);
    hide Print, Value, ParseRange;
    assert DeniesWith("bytes */" + Print(|file|), Print(|file|), |file|);
  }

  lemma PreparedFits(value: string, size: nat)
    ensures var plan := Prepared(value, size);
            && plan.size == size && plan.offset + plan.count <= size && (plan.partial ==> plan.count > 0)
            && (plan.status == 206 <==> value != "" && ParseRange(value, size).Some?)
            && (plan.status == 206 || plan.status == 200 || plan.status == 416)
  {
    if ParseRange(value, size).Some? {
      var first, last := SplitAsks(value, size);
      ChoosesClippedRange(value, first, last, size);
    }
    hide ParseRange;
  }

  /** The answer to HEAD is that to GET without the body. */
  lemma HeadAgrees(value: string, file: string)
    ensures var plan := Prepared(value, |file|);
            && plan.size == |file| && plan.offset + plan.count <= plan.size && (plan.partial ==> plan.count > 0)
            && Populated(plan, file, true) == Populated(plan, file, false).(sent := "")
  {
    PreparedFits(value, |file|);
    hide ParseRange, Print;
  }

  lemma PrintedAnnounces(first: nat, last: nat, size: nat)
    ensures Announces("bytes " + Print(first) + "-" + Print(last) + "/" + Print(size), first, last, size)
  {
    hide Print, Value, AllDigits;
    PrintDigits(first);
    PrintDigits(last);
    PrintDigits(size);
    var text := "bytes " + Print(first) + "-" + Print(last) + "/" + Print(size);
    assert AnnouncesWith(text, Print(first), Print(last), Print(size), first, last, size);
  }

  /** Asking again for the announced bytes gets the same interval. */
  lemma AnnouncedRangeIsStable(value: string, size: nat)
    requires ParseRange(value, size).Some? && size < SIZE_LIMIT
    ensures var (offset, count) := ParseRange(value, size).value;
            ParseRange(UNIT + Print(offset) + "-" + Print(offset + count - 1), size) == Some((offset, count))
  {
    hide ParseRange, Interval, Print, Wants, Value, Unsigned;
    var first, last := SplitAsks(value, size);
    ChoosesClippedRange(value, first, last, size);
    var (offset, count) := ParseRange(value, size).value;
    var a, b := Print(offset), Print(offset + count - 1);
    PrintDigits(offset);
    PrintDigits(offset + count - 1);
    AsksSplit(UNIT + a + "-" + b, a, b, size);
    UnsignedExactly(a);
    UnsignedExactly(b);
    IntervalOf(a, b, size);
  }

  lemma IntervalOf(a: string, b: string, size: nat)
    requires a != "" && b != "" && Unsigned(a).Some? && Unsigned(b).Some?
             && Unsigned(a).value <= Unsigned(b).value < size
    ensures Interval(a, b, size) == Some((Unsigned(a).value, Unsigned(b).value - Unsigned(a).value + 1))
  {
    hide Unsigned;
  }
}
