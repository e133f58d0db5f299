/** The bar-separated text form of a session kept in the cache (SessionCache). */
module SessionTextCodec {
  import opened Wrappers
  import opened Decimal

  datatype Session = Session(id: nat, token: string, userId: nat, sceneId: string,
                             status: int, createdAt: string, updatedAt: string)

  /** The widths of the source's integer fields. */
  predicate Representable(s: Session) {
    s.id < SIZE_LIMIT && s.userId < SIZE_LIMIT && -0x8000_0000 <= s.status < 0x8000_0000
  }

  predicate BarFree(s: string) { '|' !in s }

  /** No text field hides a separator and the last field is not lost at the end of the text. */
  predicate Storable(s: Session) {
    && BarFree(s.token) && BarFree(s.sceneId) && BarFree(s.createdAt) && BarFree(s.updatedAt)
    && s.updatedAt != ""
  }

  /** The stream of insertions that writes the fields with a bar between neighbours. */
  function Join(fs: seq<string>): string {
    if fs == [] then "" else if |fs| == 1 then fs[0] else fs[0] + "|" + Join(fs[1..])
  }

  function FieldsOf(s: Session): seq<string> {
    [Print(s.id), s.token, Print(s.userId), s.sceneId, PrintInt(s.status), s.createdAt, s.updatedAt]
  }

  function Serialize(s: Session): string { Join(FieldsOf(s)) }

  lemma JoinFirst(a: string, rest: seq<string>)
    requires rest != []
    ensures Join([a] + rest) == a + "|" + Join(rest)
  {
    assert ([a] + rest)[1..] == rest;
  }

  /** The text of one session, field by field. */
  lemma SerializedExample()
    ensures Serialize(Session(42, "t", 7, "h", -1, "c", "u")) == "42|t|7|h|-1|c|u"
  {
    SmallNumbers();
    hide Print, PrintInt, Join;
    var tail := ["h", "-1", "c", "u"];
    SerializedTail();
    JoinFirst("7", tail);
    JoinFirst("t", ["7"] + tail);
    JoinFirst("42", ["t"] + (["7"] + tail));
    assert FieldsOf(Session(42, "t", 7, "h", -1, "c", "u")) == ["42"] + (["t"] + (["7"] + tail));
    assert Join(["7"] + tail) == "7|h|-1|c|u";
    assert Join(["t"] + (["7"] + tail)) == "t|7|h|-1|c|u";
  }

  lemma SmallNumbers()
    ensures Print(42) == "42" && Print(7) == "7" && PrintInt(-1) == "-1"
  {
  }

  lemma SerializedTail()
    ensures Join(["h", "-1", "c", "u"]) == "h|-1|c|u"
  {
    assert Join(["u"]) == "u";
    hide Join;
    JoinFirst("c", ["u"]);
    JoinFirst("-1", ["c", "u"]);
    JoinFirst("h", ["-1", "c", "u"]);
    assert ["h", "-1", "c", "u"] == ["h"] + ["-1", "c", "u"];
    assert ["-1", "c", "u"] == ["-1"] + ["c", "u"] && ["c", "u"] == ["c"] + ["u"];
    assert Join(["c", "u"]) == "c|u";
    assert Join(["-1", "c", "u"]) == "-1|c|u";
  }

  function BarIndex(data: string): (i: nat)
    ensures i <= |data| && BarFree(data[..i])
    ensures i < |data| ==> data[i] == '|'
  {
    if data == "" || data[0] == '|' then 0
    else
      var i := BarIndex(data[1..]) + 1;
      assert data[..i] == [data[0]] + data[1..][..i - 1];
      i
  }

  /** Repeated getline with '|': a separator at the very end opens no further field. */
  function Fields(data: string): (fs: seq<string>)
    ensures forall f :: f in fs ==> BarFree(f)
  {
    if data == "" then []
    else
      var i := BarIndex(data);
      if i == |data| then
        assert data[..i] == data;
        [data]
      else [data[..i]] + Fields(data[i + 1..])
  }

  function Deserialize(data: string): Option<Session> { FromFields(Fields(data)) }

  function FromFields(fs: seq<string>): Option<Session> {
    if |fs| != 7 then None
    else
      match (Stoull(fs[0]), Stoull(fs[2]), Stoi(fs[4]))
      case (Some(id), Some(user), Some(status)) =>
        Some(Session(id, fs[1], user, fs[3], status, fs[5], fs[6]))
      case _ => None
  }

  lemma FieldsOfJoin(a: string, rest: string)
    requires BarFree(a)
    ensures Fields(a + "|" + rest) == [a] + Fields(rest)
  {
    var d := a + "|" + rest;
    var i := BarIndex(d);
    assert d[|a|] == '|' && d[..|a|] == a;
    BarIndexIs(d, |a|);
    assert d[..|a|] == a && d[|a| + 1..] == rest;
  }

  lemma FieldOfRest(a: string)
    requires BarFree(a)
    ensures Fields(a) == if a == "" then [] else [a]
  {
    assert a[..|a|] == a;
    BarIndexIs(a, |a|);
  }

  lemma PrintedBarFree(n: nat, i: int)
    ensures BarFree(Print(n)) && BarFree(PrintInt(i))
  {
    PrintDigits(n);
    PrintDigits(if i < 0 then -i else i);
  }

  predicate AllBarFree(fs: seq<string>) { forall i :: 0 <= i < |fs| ==> BarFree(fs[i]) }

  lemma {:induction false} FieldsOfJoined(fs: seq<string>)
    requires |fs| > 0 && AllBarFree(fs)
    ensures Fields(Join(fs)) == if fs[|fs| - 1] == "" then fs[..|fs| - 1] else fs
  {
    hide BarIndex;
    if |fs| == 1 {
      FieldOfRest(fs[0]);
    } else {
      FieldsOfJoined(fs[1..]);
      FieldsOfJoin(fs[0], Join(fs[1..]));
    }
  }

  lemma FieldsReadBack(s: Session)
    requires Representable(s)
    ensures FromFields(FieldsOf(s)) == Some(s)
  {
    IntegersRoundTrip(s.id, s.status);
    IntegersRoundTrip(s.userId, s.status);
    hide Stoull, Stoi, Print, PrintInt;
  }

  predicate TextsBarFree(s: Session) {
    BarFree(s.token) && BarFree(s.sceneId) && BarFree(s.createdAt) && BarFree(s.updatedAt)
  }

  lemma BarFreeFields(s: Session)
    requires TextsBarFree(s)
    ensures Fields(Serialize(s)) == if s.updatedAt == "" then FieldsOf(s)[..6] else FieldsOf(s)
  {
    hide Fields, Join, Print, PrintInt;
    PrintedBarFree(s.id, s.status);
    PrintedBarFree(s.userId, s.status);
    FieldsOfJoined(FieldsOf(s));
  }

  /** Fields never hold a bar, so neither do the texts of a session read from them. */
  lemma ReadTextsBarFree(data: string)
    requires Deserialize(data).Some?
    ensures TextsBarFree(Deserialize(data).value)
  {
    var fs := Fields(data);
    hide Stoull, Stoi, BarFree;
    assert fs[1] in fs && fs[3] in fs && fs[5] in fs && fs[6] in fs;
  }

  /** Reading back what was written gives the same session exactly when the session is storable. */
  lemma RoundTripExactly(s: Session)
    requires Representable(s)
    ensures Deserialize(Serialize(s)) == Some(s) <==> Storable(s)
  {
    hide Fields, Serialize, FieldsOf, BarFree, Representable;
    FieldsReadBack(s);
    if TextsBarFree(s) {
      BarFreeFields(s);
    } else if Deserialize(Serialize(s)).Some? {
      ReadTextsBarFree(Serialize(s));
    }
    hide Stoull, Stoi;
  }

  function Tombstone(token: string): Session {
    Session(0, token, 0, "", 0, "revoked", "revoked")
  }

  lemma {:induction false} FieldsAtLeast(a: string, rest: string)
    ensures |Fields(a + "|" + rest)| >= (if BarFree(a) then 1 else 2) + |Fields(rest)|
    decreases |a|
  {
    if BarFree(a) {
      FieldsOfJoin(a, rest);
    } else {
      var i := BarIndex(a);
      assert a[..|a|] == a;
      var b, c := a[..i], a[i + 1..];
      assert a + "|" + rest == b + "|" + (c + "|" + rest);
      FieldsOfJoin(b, c + "|" + rest);
      FieldsAtLeast(c, rest);
    }
  }

  /** A tombstone's text is either unreadable or reads back as the tombstone: whatever the
      token, nothing active can be read from it. */
  lemma TombstoneNeverActive(token: string)
    ensures Deserialize(Serialize(Tombstone(token))) ==
            if BarFree(token) then Some(Tombstone(token)) else None
  {
    hide Print, PrintInt, Stoull, Stoi;
    var s := Tombstone(token);
    RoundTripExactly(s);
    if !BarFree(token) {
      var fs := FieldsOf(s);
      PrintedBarFree(0, 0);
      FieldsOfJoined(fs[2..]);
      FieldsAtLeast(token, Join(fs[2..]));
      assert fs[1..][1..] == fs[2..];
      FieldsOfJoin(fs[0], Join(fs[1..]));
    }
  }

  /** Without storability an inactive session can be read back as an active one: a bar in the
      scene shifts the fields and the empty last field is dropped. */
  lemma UnstorableCanTurnActive(s: Session, scene: string)
    requires Representable(s) && s.status == 0 && s.sceneId == scene + "|" + PrintInt(1)
    requires BarFree(s.token) && BarFree(scene) && BarFree(s.createdAt) && s.createdAt != "" && s.updatedAt == ""
    ensures Deserialize(Serialize(s)) ==
            Some(s.(sceneId := scene, status := 1, createdAt := PrintInt(0), updatedAt := s.createdAt))
  {
    var fs := FieldsOf(s);
    var gs := [fs[0], fs[1], fs[2], scene, PrintInt(1), fs[4], fs[5], fs[6]];
    JoinWithBar(fs, 3, scene, PrintInt(1));
    assert fs[..3] + [scene, PrintInt(1)] + fs[4..] == gs;
    PrintedBarFree(s.id, 0);
    PrintedBarFree(s.userId, 1);
    FieldsOfJoined(gs);
    IntegersRoundTrip(s.id, 1);
    IntegersRoundTrip(s.userId, 1);
  }

  /** A bar inside a field reads like a separator. */
  lemma {:induction false} JoinWithBar(fs: seq<string>, i: nat, a: string, b: string)
    requires i < |fs| && fs[i] == a + "|" + b
    ensures Join(fs) == Join(fs[..i] + [a, b] + fs[i + 1..])
  {
    var gs := fs[..i] + [a, b] + fs[i + 1..];
    if i == 0 {
      assert gs[1..] == [b] + fs[1..];
      assert gs[1..][1..] == fs[1..];
    } else {
      JoinWithBar(fs[1..], i - 1, a, b);
      assert gs[1..] == fs[1..][..i - 1] + [a, b] + fs[1..][i..];
    }
  }

  lemma FieldsFrom(data: string)
    requires data != ""
    ensures var i := BarIndex(data);
            Fields(data) == [data[..i]] + Fields(if i < |data| then data[i + 1..] else "")
  {
    var i := BarIndex(data);
    assert i == |data| ==> data[..i] == data;
  }

  /** One getline: the next field and what is left to read. */
  method GetLine(rest: string) returns (field: string, left: string)
    requires rest != ""
    ensures Fields(rest) == [field] + Fields(left) && |left| < |rest|
  {
    hide Fields, BarIndex;
    var i := 0;
    while i < |rest| && rest[i] != '|'
      invariant 0 <= i <= |rest|
      invariant BarFree(rest[..i])
    {
      i := i + 1;
    }
    BarIndexIs(rest, i);
    FieldsFrom(rest);
    return rest[..i], if i < |rest| then rest[i + 1..] else "";
  }

  /** The getline loop that collects the fields, then fills the session. */
  method ReadText(data: string) returns (r: Option<Session>)
    ensures r == Deserialize(data)
  {
    hide Fields, Stoull, Stoi;
    var fields: seq<string> := [];
    var rest := data;
    while rest != ""
      invariant Fields(data) == fields + Fields(rest)
      decreases |rest|
    {
      var field;
      field, rest := GetLine(rest);
      fields := fields + [field];
    }
    FieldOfRest("");
    assert fields == Fields(data);
    if |fields| != 7 {
      return None;
    }
    var id, user, status := Stoull(fields[0]), Stoull(fields[2]), Stoi(fields[4]);
    if id.None? || user.None? || status.None? {
      return None;
    }
    return Some(Session(id.value, fields[1], user.value, fields[3], status.value, fields[5], fields[6]));
  }

  lemma BarIndexIs(data: string, i: nat)
    requires i <= |data| && BarFree(data[..i])
    requires i < |data| ==> data[i] == '|'
    ensures BarIndex(data) == i
  {
    var j := BarIndex(data);
    assert forall k :: 0 <= k < i ==> data[k] in data[..i];
    assert forall k :: 0 <= k < j ==> data[k] in data[..j];
  }
}
