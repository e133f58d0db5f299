/** The binary session codec: length-prefixed strings and big-endian numbers. The order in which the
    values are written is the hash table's, so it is a parameter. */
module SessionBinaryCodec {
  import opened Wrappers
  import opened BigEndian

  /** expiresAt and ttl are 64-bit signed. */
  datatype Session = Session(id: Bytes, expiresAt: int, ttl: int, values: map<Bytes, Bytes>)

  const U32 := 0x1_0000_0000
  const U64 := 0x1_0000_0000_0000_0000
  const S64 := 0x8000_0000_0000_0000

  predicate Int64(x: int) { -S64 <= x < S64 }

  /** The casts between int64_t and uint64_t. */
  function ToUnsigned(x: int): nat
    requires Int64(x)
  {
    if x < 0 then x + U64 else x
  }

  function ToSigned(u: nat): int { if u >= S64 then u - U64 else u }

  predicate WellFormed(s: Session) { Int64(s.expiresAt) && Int64(s.ttl) }

  // ---------- encoding ----------

  ghost predicate Orders(order: seq<Bytes>, values: map<Bytes, Bytes>) {
    && (forall k :: k in values <==> k in order)
    && (forall i, j :: 0 <= i < j < |order| ==> order[i] != order[j])
  }

  function Str(b: Bytes): Bytes { Put(|b|, 4) + b }

  function Entries(order: seq<Bytes>, values: map<Bytes, Bytes>): Bytes
    requires forall k :: k in order ==> k in values
  {
    if order == [] then [] else Str(order[0]) + Str(values[order[0]]) + Entries(order[1..], values)
  }

  /** Every length fits 32 bits. */
  predicate Fits(s: Session) {
    |s.id| < U32 && |s.values| < U32 && forall k :: k in s.values ==> |k| < U32 && |s.values[k]| < U32
  }

  function Header(s: Session): Bytes
    requires WellFormed(s)
  {
    Str(s.id) + Put(ToUnsigned(s.expiresAt), 8) + Put(ToUnsigned(s.ttl), 8) + Put(|s.values|, 4)
  }

  /** encode with the values in this order; a length that does not fit gives the empty string. */
  ghost function Encode(s: Session, order: seq<Bytes>): Bytes
    requires WellFormed(s) && Orders(order, s.values)
  {
    if Fits(s) then Header(s) + Entries(order, s.values) else []
  }

  lemma PutBytes()
    ensures Put(0, 4) == [0, 0, 0, 0] && Put(1, 4) == [0, 0, 0, 1] && Put(2, 4) == [0, 0, 0, 2]
    ensures Put(258, 8) == [0, 0, 0, 0, 0, 0, 1, 2]
    ensures Put(3, 8) == [0, 0, 0, 0, 0, 0, 0, 3]
  {
    PutOfValue([0, 0, 0, 1]);
    PutOfValue([0, 0, 0, 2]);
    PutOfValue([0, 0, 0, 0, 0, 0, 1, 2]);
    PutOfValue([0, 0, 0, 0, 0, 0, 0, 3]);
  }

  /** The bytes of one session: id, expiry, lifetime, count, and one key with its value. */
  lemma EncodedExample()
    ensures var s := Session([9], 258, 3, map[[5] := [6, 7]]);
            && Orders([[5]], s.values)
            && Encode(s, [[5]]) == [0, 0, 0, 1, 9] + [0, 0, 0, 0, 0, 0, 1, 2]
                                   + [0, 0, 0, 0, 0, 0, 0, 3] + [0, 0, 0, 1]
                                   + ([0, 0, 0, 1, 5] + [0, 0, 0, 2, 6, 7])
  {
    PutBytes();
    hide Put;
    var values: map<Bytes, Bytes> := map[[5] := [6, 7]];
    assert |values| == 1;
    assert Entries([[5]], values) == Str([5]) + Str([6, 7]) + Entries([], values) by { assert [[5]][1..] == []; }
    assert Str([9]) == [0, 0, 0, 1, 9] && Str([5]) == [0, 0, 0, 1, 5] && Str([6, 7]) == [0, 0, 0, 2, 6, 7];
  }

  // ---------- decoding, from the front of the remaining bytes ----------

  function GetNum(text: Bytes, n: nat): Option<(nat, Bytes)> {
    if |text| < n then None else Some((Value(text[..n]), text[n..]))
  }

  function GetStr(text: Bytes): Option<(Bytes, Bytes)> {
    match GetNum(text, 4)
    case None => None
    case Some((size, rest)) => if size > |rest| then None else Some((rest[..size], rest[size..]))
  }

  /** One key and value; a repeated key is refused. */
  function GetEntry(text: Bytes, values: map<Bytes, Bytes>): Option<(Bytes, Bytes, Bytes)> {
    match GetStr(text)
    case None => None
    case Some((key, more)) =>
      match GetStr(more)
      case None => None
      case Some((value, rest)) => if key in values then None else Some((key, value, rest))
  }

  function GetEntries(text: Bytes, n: nat, values: map<Bytes, Bytes>): Option<(map<Bytes, Bytes>, Bytes)>
    decreases n
  {
    if n == 0 then Some((values, text))
    else
      match GetEntry(text, values)
      case None => None
      case Some((key, value, rest)) => GetEntries(rest, n - 1, values[key := value])
  }

  datatype Head = Head(id: Bytes, expires: nat, ttl: nat, count: nat, rest: Bytes)

  function GetHeader(text: Bytes): Option<Head> {
    match GetStr(text)
    case None => None
    case Some((id, t1)) =>
      match GetNum(t1, 8)
      case None => None
      case Some((expires, t2)) =>
        match GetNum(t2, 8)
        case None => None
        case Some((ttl, t3)) =>
          match GetNum(t3, 4)
          case None => None
          case Some((count, t4)) => Some(Head(id, expires, ttl, count, t4))
  }

  /** A session and what follows it. */
  function Parse(text: Bytes): Option<(Session, Bytes)> {
    match GetHeader(text)
    case None => None
    case Some(h) =>
      match GetEntries(h.rest, h.count, map[])
      case None => None
      case Some((values, rest)) => Some((Session(h.id, ToSigned(h.expires), ToSigned(h.ttl), values), rest))
  }

  function Decode(text: Bytes): Option<Session> {
    match Parse(text) case None => None case Some((s, rest)) => if rest == [] then Some(s) else None
  }

  // ---------- primitives round-trip ----------

  lemma PowValues()
    ensures Pow256(4) == U32 && Pow256(8) == U64
  {
    assert Pow256(1) == 256 && Pow256(2) == 65536 && Pow256(3) == 16777216 && Pow256(4) == U32;
    assert Pow256(5) == 256 * U32 && Pow256(6) == 65536 * U32 && Pow256(7) == 16777216 * U32;
  }

  lemma NumBack(v: nat, n: nat, rest: Bytes)
    requires v < Pow256(n)
    ensures GetNum(Put(v, n) + rest, n) == Some((v, rest))
  {
    ValueOfPut(v, n);
    hide Put, Value;
    var text := Put(v, n) + rest;
    assert text[..n] == Put(v, n) && text[n..] == rest;
  }

  lemma StrBack(b: Bytes, rest: Bytes)
    requires |b| < U32
    ensures GetStr(Str(b) + rest) == Some((b, rest))
  {
    PowValues();
    hide Put, Pow256, GetNum;
    NumBack(|b|, 4, b + rest);
    assert Str(b) + rest == Put(|b|, 4) + (b + rest);
    assert (b + rest)[..|b|] == b && (b + rest)[|b|..] == rest;
  }

  /** Reading a number or string, and what it took. */
  lemma NumExact(text: Bytes, n: nat)
    requires GetNum(text, n).Some?
    ensures var (v, rest) := GetNum(text, n).value; v < Pow256(n) && text == Put(v, n) + rest
  {
    PutOfValue(text[..n]);
    hide Put, Value;
    assert text == text[..n] + text[n..];
  }

  lemma StrExact(text: Bytes)
    requires GetStr(text).Some?
    ensures var (b, rest) := GetStr(text).value; |b| < U32 && text == Str(b) + rest
  {
    PowValues();
    hide Put, Value, Pow256;
    NumExact(text, 4);
    var (size, more) := GetNum(text, 4).value;
    var (b, rest) := GetStr(text).value;
    hide GetNum;
    assert more == b + rest;
    assert Put(size, 4) + (b + rest) == Put(size, 4) + b + rest;
  }

  // ---------- entries ----------

  /** The values of the keys in order added to some values. */
  ghost predicate Extends(m: map<Bytes, Bytes>, order: seq<Bytes>, all: map<Bytes, Bytes>) {
    && (forall k :: k in all <==> k in m || k in order)
    && (forall k :: k in m ==> k !in order && all[k] == m[k])
    && (forall i, j :: 0 <= i < j < |order| ==> order[i] != order[j])
  }

  lemma EntryBack(k: Bytes, v: Bytes, rest: Bytes, m: map<Bytes, Bytes>)
    requires |k| < U32 && |v| < U32 && k !in m
    ensures GetEntry(Str(k) + Str(v) + rest, m) == Some((k, v, rest))
  {
    hide Str, GetStr;
    assert Str(k) + Str(v) + rest == Str(k) + (Str(v) + rest);
    StrBack(k, Str(v) + rest);
    StrBack(v, rest);
  }

  lemma ExtendsTail(m: map<Bytes, Bytes>, order: seq<Bytes>, all: map<Bytes, Bytes>)
    requires Extends(m, order, all) && order != []
    ensures order[0] in all && order[0] !in m && Extends(m[order[0] := all[order[0]]], order[1..], all)
  {
    assert forall k :: k in order <==> k == order[0] || k in order[1..];
  }

  lemma GetEntriesStep(text: Bytes, n: nat, m: map<Bytes, Bytes>, k: Bytes, v: Bytes, rest: Bytes)
    requires n > 0 && GetEntry(text, m) == Some((k, v, rest))
    ensures GetEntries(text, n, m) == GetEntries(rest, n - 1, m[k := v])
  {
    hide GetEntry;
  }

  lemma EntriesStep(order: seq<Bytes>, all: map<Bytes, Bytes>, rest: Bytes)
    requires order != [] && forall k :: k in order ==> k in all
    ensures Entries(order, all) + rest == Str(order[0]) + Str(all[order[0]]) + (Entries(order[1..], all) + rest)
  {
    hide Str;
    var a, b := Str(order[0]) + Str(all[order[0]]), Entries(order[1..], all);
    assert a + b + rest == a + (b + rest);
  }

  lemma ExtendsKeys(m: map<Bytes, Bytes>, order: seq<Bytes>, all: map<Bytes, Bytes>)
    requires Extends(m, order, all)
    ensures forall k :: k in order ==> k in all
    ensures order == [] ==> m == all
  {
  }

  lemma {:induction false} EntriesBack(order: seq<Bytes>, all: map<Bytes, Bytes>, m: map<Bytes, Bytes>, rest: Bytes)
    requires Extends(m, order, all) && (forall k :: k in order ==> k in all) && ShortEntries(order, all)
    ensures GetEntries(Entries(order, all) + rest, |order|, m) == Some((all, rest))
    decreases |order|
  {
    ExtendsKeys(m, order, all);
    if order == [] {
      assert Entries(order, all) + rest == rest;
    } else {
      var k := order[0];
      assert k in order;
      assert ShortEntries(order[1..], all);
      ExtendsTail(m, order, all);
      hide Str, GetEntry, GetEntries, Entries, Extends, ShortEntries;
      var tail := Entries(order[1..], all) + rest;
      EntriesStep(order, all, rest);
      EntryBack(k, all[k], tail, m);
      GetEntriesStep(Entries(order, all) + rest, |order|, m, k, all[k], tail);
      EntriesBack(order[1..], all, m[k := all[k]], rest);
    }
  }

  lemma EntryExact(text: Bytes, m: map<Bytes, Bytes>)
    requires GetEntry(text, m).Some?
    ensures var (k, v, rest) := GetEntry(text, m).value;
            |k| < U32 && |v| < U32 && k !in m && text == Str(k) + Str(v) + rest
  {
    hide Str, GetStr;
    StrExact(text);
    var (k, more) := GetStr(text).value;
    StrExact(more);
    var (v, rest) := GetStr(more).value;
    assert Str(k) + (Str(v) + rest) == Str(k) + Str(v) + rest;
  }

  predicate ShortEntries(order: seq<Bytes>, all: map<Bytes, Bytes>) {
    forall k :: k in order && k in all ==> |k| < U32 && |all[k]| < U32
  }

  /** What was read is the entries in some order. */
  lemma {:induction false} EntriesExact(text: Bytes, n: nat, m: map<Bytes, Bytes>) returns (order: seq<Bytes>)
    requires GetEntries(text, n, m).Some?
    ensures var (all, rest) := GetEntries(text, n, m).value;
            && Extends(m, order, all) && |order| == n && ShortEntries(order, all)
            && text == Entries(order, all) + rest
    decreases n
  {
    hide Str, GetEntry, Extends, ShortEntries;
    if n == 0 {
      order := [];
      NoEntries(text, m);
    } else {
      EntryExact(text, m);
      var (k, v, more) := GetEntry(text, m).value;
      var later := EntriesExact(more, n - 1, m[k := v]);
      order := [k] + later;
      var (all, rest) := GetEntries(more, n - 1, m[k := v]).value;
      ExtendsCons(m, k, v, later, all);
      hide GetEntries, Entries;
      EntriesCons(k, later, all, rest);
    }
  }

  lemma NoEntries(text: Bytes, m: map<Bytes, Bytes>)
    ensures Extends(m, [], m) && ShortEntries([], m) && text == Entries([], m) + text
  {
  }

  lemma EntriesCons(k: Bytes, later: seq<Bytes>, all: map<Bytes, Bytes>, rest: Bytes)
    requires k in all && (forall j :: j in later ==> j in all)
    ensures forall j :: j in [k] + later ==> j in all
    ensures Str(k) + Str(all[k]) + (Entries(later, all) + rest) == Entries([k] + later, all) + rest
    ensures |k| < U32 && |all[k]| < U32 && ShortEntries(later, all) ==> ShortEntries([k] + later, all)
  {
    hide Str;
    assert ([k] + later)[1..] == later;
    var a, b := Str(k) + Str(all[k]), Entries(later, all);
    assert a + (b + rest) == a + b + rest;
  }

  lemma ExtendsCons(m: map<Bytes, Bytes>, k: Bytes, v: Bytes, later: seq<Bytes>, all: map<Bytes, Bytes>)
    requires k !in m && Extends(m[k := v], later, all)
    ensures Extends(m, [k] + later, all) && k in all && all[k] == v && forall j :: j in later ==> j in all
  {
    assert forall x :: x in [k] + later <==> x == k || x in later;
    assert k in m[k := v];
  }

  // ---------- the size of a map is the number of its keys ----------

  lemma {:induction false} OrderLength(order: seq<Bytes>, values: map<Bytes, Bytes>)
    requires Orders(order, values)
    ensures |order| == |values|
  {
    SetOfOrder(order);
    assert values.Keys == set k | k in order;
    assert |values| == |values.Keys|;
  }

  lemma {:induction false} SetOfOrder(order: seq<Bytes>)
    requires forall i, j :: 0 <= i < j < |order| ==> order[i] != order[j]
    ensures |set k | k in order| == |order|
  {
    if order != [] {
      SetOfOrder(order[1..]);
      assert (set k | k in order) == (set k | k in order[1..]) + {order[0]};
    }
  }

  // ---------- whole sessions ----------

  lemma HeaderBack(s: Session, rest: Bytes)
    requires WellFormed(s) && Fits(s)
    ensures GetHeader(Header(s) + rest) ==
            Some(Head(s.id, ToUnsigned(s.expiresAt), ToUnsigned(s.ttl), |s.values|, rest))
  {
    PowValues();
    hide Str, Put, Pow256, GetStr, GetNum;
    var e, t, c := Put(ToUnsigned(s.expiresAt), 8), Put(ToUnsigned(s.ttl), 8), Put(|s.values|, 4);
    assert Header(s) + rest == Str(s.id) + (e + (t + (c + rest)));
    StrBack(s.id, e + (t + (c + rest)));
    NumBack(ToUnsigned(s.expiresAt), 8, t + (c + rest));
    NumBack(ToUnsigned(s.ttl), 8, c + rest);
    NumBack(|s.values|, 4, rest);
  }

  lemma FitsShort(s: Session, order: seq<Bytes>)
    requires Fits(s) && Orders(order, s.values)
    ensures ShortEntries(order, s.values) && forall k :: k in order ==> k in s.values
  {
  }

  lemma OrdersExtend(order: seq<Bytes>, values: map<Bytes, Bytes>)
    requires Orders(order, values)
    ensures Extends(map[], order, values)
  {
  }

  lemma ParseBack(s: Session, order: seq<Bytes>, rest: Bytes)
    requires WellFormed(s) && Fits(s) && Orders(order, s.values)
    ensures Parse(Encode(s, order) + rest) == Some((s, rest))
  {
    hide GetHeader, GetEntries, Entries, Orders, Extends, Header, ShortEntries;
    OrderLength(order, s.values);
    OrdersExtend(order, s.values);
    FitsShort(s, order);
    EntriesBack(order, s.values, map[], rest);
    HeaderBack(s, Entries(order, s.values) + rest);
    assert Encode(s, order) + rest == Header(s) + (Entries(order, s.values) + rest);
  }

  /** Whatever the order of the values, decode undoes encode exactly when every length fits 32 bits;
      otherwise encode gives the empty string, which decode refuses. */
  lemma DecodeUndoesEncode(s: Session, order: seq<Bytes>)
    requires WellFormed(s) && Orders(order, s.values)
    ensures Fits(s) ==> Decode(Encode(s, order)) == Some(s)
    ensures !Fits(s) ==> Decode(Encode(s, order)) == None
  {
    hide Parse, Fits;
    if Fits(s) {
      ParseBack(s, order, []);
      assert Encode(s, order) + [] == Encode(s, order);
    } else {
      EmptyRefused();
    }
  }

  lemma EmptyRefused()
    ensures Parse([]) == None
  {
  }

  lemma HeaderExact(text: Bytes)
    requires GetHeader(text).Some?
    ensures var h := GetHeader(text).value;
            && |h.id| < U32 && h.expires < U64 && h.ttl < U64 && h.count < U32
            && text == Str(h.id) + Put(h.expires, 8) + Put(h.ttl, 8) + Put(h.count, 4) + h.rest
  {
    PowValues();
    hide Str, Put, Pow256, GetStr, GetNum;
    StrExact(text);
    var (id, t1) := GetStr(text).value;
    NumExact(t1, 8);
    var (expires, t2) := GetNum(t1, 8).value;
    NumExact(t2, 8);
    var (ttl, t3) := GetNum(t2, 8).value;
    NumExact(t3, 4);
    var (count, t4) := GetNum(t3, 4).value;
    assert Str(id) + (Put(expires, 8) + (Put(ttl, 8) + (Put(count, 4) + t4)))
        == Str(id) + Put(expires, 8) + Put(ttl, 8) + Put(count, 4) + t4;
  }

  lemma SignsBack(u: nat)
    requires u < U64
    ensures Int64(ToSigned(u)) && ToUnsigned(ToSigned(u)) == u
  {
  }

  /** Accepted bytes are the encoding of the decoded session, in some order of its values. */
  lemma DecodeAcceptsOnlyEncodings(text: Bytes) returns (order: seq<Bytes>)
    requires Decode(text).Some?
    ensures var s := Decode(text).value;
            WellFormed(s) && Orders(order, s.values) && Fits(s) && Encode(s, order) == text
  {
    var s := Decode(text).value;
    HeaderExact(text);
    var h := GetHeader(text).value;
    order := EntriesExact(h.rest, h.count, map[]);
    SignsBack(h.expires);
    SignsBack(h.ttl);
    hide GetHeader, GetEntries, Put;
    assert Orders(order, s.values);
    OrderLength(order, s.values);
    assert Fits(s);
    hide Orders, Extends;
    assert h.rest == Entries(order, s.values) + [] == Entries(order, s.values);
  }

  // ---------- prefixes and extensions ----------

  lemma NumLonger(text: Bytes, n: nat, more: Bytes)
    requires GetNum(text, n).Some?
    ensures GetNum(text + more, n) == Some((GetNum(text, n).value.0, GetNum(text, n).value.1 + more))
  {
    hide Value;
    assert (text + more)[..n] == text[..n] && (text + more)[n..] == text[n..] + more;
  }

  lemma StrLonger(text: Bytes, more: Bytes)
    requires GetStr(text).Some?
    ensures GetStr(text + more) == Some((GetStr(text).value.0, GetStr(text).value.1 + more))
  {
    hide GetNum;
    NumLonger(text, 4, more);
    var (size, rest) := GetNum(text, 4).value;
    assert (rest + more)[..size] == rest[..size] && (rest + more)[size..] == rest[size..] + more;
  }

  lemma {:induction false} EntriesLonger(text: Bytes, n: nat, m: map<Bytes, Bytes>, more: Bytes)
    requires GetEntries(text, n, m).Some?
    ensures GetEntries(text + more, n, m) ==
            Some((GetEntries(text, n, m).value.0, GetEntries(text, n, m).value.1 + more))
    decreases n
  {
    hide GetStr;
    if n > 0 {
      StrLonger(text, more);
      var (k, t1) := GetStr(text).value;
      StrLonger(t1, more);
      var (v, t2) := GetStr(t1).value;
      EntriesLonger(t2, n - 1, m[k := v], more);
    }
  }

  lemma HeaderLonger(text: Bytes, more: Bytes)
    requires GetHeader(text).Some?
    ensures var h := GetHeader(text).value; GetHeader(text + more) == Some(h.(rest := h.rest + more))
  {
    hide GetStr, GetNum;
    StrLonger(text, more);
    var (id, t1) := GetStr(text).value;
    NumLonger(t1, 8, more);
    var (expires, t2) := GetNum(t1, 8).value;
    NumLonger(t2, 8, more);
    var (ttl, t3) := GetNum(t2, 8).value;
    NumLonger(t3, 4, more);
  }

  lemma ParseLonger(text: Bytes, more: Bytes)
    requires Parse(text).Some?
    ensures Parse(text + more) == Some((Parse(text).value.0, Parse(text).value.1 + more))
  {
    hide GetHeader, GetEntries;
    HeaderLonger(text, more);
    var h := GetHeader(text).value;
    EntriesLonger(h.rest, h.count, map[], more);
  }

  /** No proper extension of accepted bytes is accepted, and so no proper prefix either. */
  lemma NoPrefixNoExtension(text: Bytes, more: Bytes)
    requires more != []
    ensures !(Decode(text).Some? && Decode(text + more).Some?)
  {
    hide Parse;
    if Decode(text).Some? {
      ParseLonger(text, more);
      assert [] + more == more;
    }
  }

  // ---------- the loops ----------

  lemma SliceNum(text: Bytes, p: nat, n: nat)
    requires p <= |text|
    ensures GetNum(text[p..], n) == if |text| - p < n then None else Some((Value(text[p..p + n]), text[p + n..]))
  {
    hide Value;
    if |text| - p >= n { assert text[p..][..n] == text[p..p + n] && text[p..][n..] == text[p + n..]; }
  }

  /** getString at a cursor. */
  method GetString(text: Bytes, p: nat) returns (value: Option<Bytes>, next: nat)
    requires p <= |text|
    ensures next <= |text|
    ensures GetStr(text[p..]) == match value case None => None case Some(v) => Some((v, text[next..]))
  {
    hide Value;
    next := p;
    SliceNum(text, p, 4);
    var size := GetNumber(text, p, 4);
    if size.None? || size.value > |text| - (p + 4) {
      return None, p;
    }
    var q := p + 4;
    assert text[q..][..size.value] == text[q..q + size.value];
    assert text[q..][size.value..] == text[q + size.value..];
    return Some(text[q..q + size.value]), q + size.value;
  }

  method DecodeEntries(text: Bytes, p: nat, count: nat) returns (values: Option<map<Bytes, Bytes>>, next: nat)
    requires p <= |text|
    ensures next <= |text|
    ensures GetEntries(text[p..], count, map[]) ==
            match values case None => None case Some(m) => Some((m, text[next..]))
  {
    hide GetStr;
    next := p;
    var m: map<Bytes, Bytes> := map[];
    var i := 0;
    while i < count
      invariant 0 <= i <= count && next <= |text|
      invariant GetEntries(text[p..], count, map[]) == GetEntries(text[next..], count - i, m)
    {
      var key, q := GetString(text, next);
      if key.None? {
        return None, p;
      }
      var value, r := GetString(text, q);
      if value.None? || key.value in m {
        return None, p;
      }
      m, next, i := m[key.value := value.value], r, i + 1;
    }
    values := Some(m);
  }

  method DecodeSession(text: Bytes) returns (session: Option<Session>)
    ensures session == Decode(text)
  {
    hide GetStr, GetEntries, Value;
    assert text[0..] == text;
    var id, p := GetString(text, 0);
    if id.None? {
      return None;
    }
    SliceNum(text, p, 8);
    var expires := GetNumber(text, p, 8);
    if expires.None? {
      return None;
    }
    SliceNum(text, p + 8, 8);
    var ttl := GetNumber(text, p + 8, 8);
    if ttl.None? {
      return None;
    }
    SliceNum(text, p + 16, 4);
    var count := GetNumber(text, p + 16, 4);
    if count.None? {
      return None;
    }
    hide GetNum;
    var values, next := DecodeEntries(text, p + 20, count.value);
    if values.None? || next != |text| {
      return None;
    }
    return Some(Session(id.value, ToSigned(expires.value), ToSigned(ttl.value), values.value));
  }

  lemma {:induction false} EntriesSnoc(order: seq<Bytes>, k: Bytes, values: map<Bytes, Bytes>)
    requires (forall j :: j in order ==> j in values) && k in values
    ensures Entries(order + [k], values) == Entries(order, values) + Str(k) + Str(values[k])
  {
    hide Str;
    if order == [] {
      assert (order + [k])[1..] == [];
    } else {
      assert (order + [k])[1..] == order[1..] + [k];
      EntriesSnoc(order[1..], k, values);
    }
  }

  /** The keys still to be written, and those written. */
  ghost predicate Split(order: seq<Bytes>, todo: set<Bytes>, values: map<Bytes, Bytes>) {
    && (forall k :: k in values <==> k in order || k in todo) && (forall k :: k in order ==> k !in todo)
    && (forall i, j :: 0 <= i < j < |order| ==> order[i] != order[j])
  }

  lemma SplitNext(order: seq<Bytes>, todo: set<Bytes>, values: map<Bytes, Bytes>, k: Bytes)
    requires Split(order, todo, values) && k in todo
    ensures Split(order + [k], todo - {k}, values)
  {
    assert forall j :: j in order + [k] <==> j in order || j == k;
  }

  method PutString(out: Bytes, b: Bytes) returns (longer: Bytes)
    ensures longer == out + Str(b)
  {
    hide Put;
    longer := PutNumber(out, |b|, 4);
    longer := longer + b;
  }

  method PutHeader(s: Session) returns (out: Bytes)
    requires WellFormed(s)
    ensures out == Header(s)
  {
    hide Put, Str;
    out := PutString([], s.id);
    assert out == Str(s.id);
    out := PutNumber(out, ToUnsigned(s.expiresAt), 8);
    out := PutNumber(out, ToUnsigned(s.ttl), 8);
    out := PutNumber(out, |s.values|, 4);
  }

  /** Everything written so far is short, and in the output. */
  ghost predicate Written(s: Session, order: seq<Bytes>, todo: set<Bytes>, out: Bytes)
    requires WellFormed(s)
  {
    && Split(order, todo, s.values) && ShortEntries(order, s.values)
    && out == Header(s) + Entries(order, s.values)
  }

  lemma WrittenNext(s: Session, order: seq<Bytes>, todo: set<Bytes>, out: Bytes, k: Bytes)
    requires WellFormed(s) && Written(s, order, todo, out) && k in todo
    ensures k in s.values
    ensures |k| < U32 && |s.values[k]| < U32 ==> Written(s, order + [k], todo - {k}, out + Str(k) + Str(s.values[k]))
  {
    hide Header, Str, Entries;
    SplitNext(order, todo, s.values, k);
    EntriesSnoc(order, k, s.values);
    assert k in s.values;
    var h, e, a, b := Header(s), Entries(order, s.values), Str(k), Str(s.values[k]);
    assert h + e + a + b == h + (e + a + b);
    hide Split;
  }

  lemma WrittenAll(s: Session, order: seq<Bytes>, todo: set<Bytes>, out: Bytes)
    requires WellFormed(s) && Written(s, order, todo, out) && |todo| == 0 && |s.id| < U32 && |s.values| < U32
    ensures Orders(order, s.values) && out == Encode(s, order)
  {
    hide Header, Entries;
    assert forall k :: k !in todo;
  }

  /** encode: the values in whatever order the table yields them, which is returned. */
  method EncodeSession(s: Session) returns (out: Bytes, ghost order: seq<Bytes>)
    requires WellFormed(s)
    ensures Orders(order, s.values) && out == Encode(s, order)
  {
    hide Orders, Header, Entries, Str;
    if |s.id| >= U32 || |s.values| >= U32 {
      order := AnyOrder(s.values);
      return [], order;
    }
    out := PutHeader(s);
    order := [];
    var todo := s.values.Keys;
    NothingWritten(s, out);
    while |todo| > 0
      invariant Written(s, order, todo, out)
      decreases |todo|
    {
      hide Written;
      var k :| k in todo;
      WrittenNext(s, order, todo, out, k);
      if |k| >= U32 || |s.values[k]| >= U32 {
        order := AnyOrder(s.values);
        return [], order;
      }
      out := PutString(out, k);
      out := PutString(out, s.values[k]);
      order := order + [k];
      todo := todo - {k};
    }
    hide Written, Encode;
    WrittenAll(s, order, todo, out);
  }

  lemma NothingWritten(s: Session, out: Bytes)
    requires WellFormed(s) && out == Header(s)
    ensures Written(s, [], s.values.Keys, out)
  {
    hide Header;
  }

  lemma {:induction false} AnyOrder(values: map<Bytes, Bytes>) returns (order: seq<Bytes>)
    ensures Orders(order, values)
    decreases |values|
  {
    order := [];
    if k :| k in values {
      assert (values - {k}).Keys == values.Keys - {k};
      var rest := AnyOrder(values - {k});
      order := [k] + rest;
      assert forall j :: j in order <==> j == k || j in rest;
    }
  }
}
