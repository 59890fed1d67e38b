/**
 The field wire format: gossip writes fields separated by bars, key and value separated by a colon, both delimiters
 escaped in values; getFieldsAndValues reads them.
 */
module WireFields {
  import opened Strings

  const FIELD_DELIMITER: char := '|'
  const PAIR_DELIMITER: char := ':'
  const PAIR_CODE := "%3A"
  const FIELD_CODE := "%7C"

  // ----- boost::replace_all -----

  function Encode(s: string, c: char, code: string): (r: string) {
    if s == "" then "" else (if s[0] == c then code else [s[0]]) + Encode(s[1..], c, code)
  }

  predicate StartsWith(s: string, code: string) { |code| <= |s| && s[..|code|] == code }

  function Decode(s: string, code: string, c: char): (r: string)
    requires code != ""
  {
    if s == "" then ""
    else if StartsWith(s, code) then [c] + Decode(s[|code|..], code, c)
    else [s[0]] + Decode(s[1..], code, c)
  }

  predicate Occurs(code: string, s: string) {
    exists i :: 0 <= i <= |s| && StartsWith(s[i..], code)
  }

  /** A percent sign and two other characters; c is not one of the three. */
  predicate IsCode(code: string, c: char) {
    |code| == 3 && code[0] == '%' && code[1] != '%' && code[2] != '%' && c !in code
  }

  /** Encoding makes no occurrence of two characters that are neither encoded nor a percent sign, and destroys none. */
  lemma TwoCharacters(s: string, c: char, code: string, x: char, y: char)
    requires code != "" && code[0] == '%' && x != '%' && y != '%' && x != c && y != c
    ensures StartsWith(Encode(s, c, code), [x, y]) <==> StartsWith(s, [x, y])
  {
    var e := Encode(s, c, code);
    StartsWithTwo(s, x, y);
    StartsWithTwo(e, x, y);
    if s != "" {
      var first, rest := if s[0] == c then code else [s[0]], Encode(s[1..], c, code);
      assert e == first + rest && e[0] == first[0];
      if s[0] != c && |s| >= 2 {
        assert s[1..][0] == s[1];
        assert rest[0] == (if s[1] == c then code else [s[1]])[0];
        assert e[1] == rest[0];
      }
    }
  }

  lemma StartsWithTwo(s: string, x: char, y: char)
    ensures StartsWith(s, [x, y]) <==> |s| >= 2 && s[0] == x && s[1] == y
  {
  }

  /** Decoding reads three characters together only if they are the code. */
  lemma DecodeFirst(h: char, s: string, code: string, c: char)
    requires IsCode(code, c)
    ensures Decode([h] + s, code, c) ==
      if h == '%' && StartsWith(s, [code[1], code[2]]) then [c] + Decode(s[2..], code, c) else [h] + Decode(s, code, c)
  {
    var t := [h] + s;
    StartsWithTwo(s, code[1], code[2]);
    assert t[1..] == s;
    assert StartsWith(t, code) <==> h == '%' && StartsWith(s, [code[1], code[2]]) by {
      if |s| >= 2 { assert t[..3] == [h, s[0], s[1]] && code == [code[0], code[1], code[2]]; }
    }
    if |s| >= 2 { assert t[3..] == s[2..]; }
  }

  lemma DecodeCode(s: string, code: string, c: char)
    requires IsCode(code, c)
    ensures Decode(code + s, code, c) == [c] + Decode(s, code, c)
  {
  }

  lemma EncodePair(s: string, c: char, code: string)
    requires |s| >= 2 && s[0] != c && s[1] != c
    ensures Encode(s, c, code) == s[..2] + Encode(s[2..], c, code)
  {
  }

  /** Decoding an encoded text decodes what the text itself held of the code. */
  lemma {:induction false} DecodeEncode(s: string, c: char, code: string)
    requires IsCode(code, c) && c != '%'
    ensures Decode(Encode(s, c, code), code, c) == Decode(s, code, c)
    decreases |s|
  {
    if s != "" {
      var h, t := s[0], s[1..];
      assert s == [h] + t;
      DecodeFirst(h, t, code, c);
      DecodeEncode(t, c, code);
      if h == c {
        DecodeCode(Encode(t, c, code), code, c);
      } else {
        DecodeFirst(h, Encode(t, c, code), code, c);
        TwoCharacters(t, c, code, code[1], code[2]);
        if h == '%' && StartsWith(t, [code[1], code[2]]) {
          assert t[0] == t[..2][0] && t[1] == t[..2][1];
          EncodePair(t, c, code);
          assert Encode(t, c, code)[2..] == Encode(t[2..], c, code);
          DecodeEncode(t[2..], c, code);
        }
      }
    }
  }

  /** Encoding one delimiter and decoding the other commute. */
  lemma {:induction false} Commute(s: string, d: char, codeD: string, code: string, c: char)
    requires IsCode(codeD, d) && IsCode(code, c) && d != '%' && c != d && d !in code && codeD[1] != code[1]
    ensures Decode(Encode(s, d, codeD), code, c) == Encode(Decode(s, code, c), d, codeD)
    decreases |s|
  {
    if s != "" {
      var h, t := s[0], s[1..];
      assert s == [h] + t;
      DecodeFirst(h, t, code, c);
      Commute(t, d, codeD, code, c);
      if h == d {
        SkipCode(Encode(t, d, codeD), codeD, code, c);
        EncodeFirst(h, Decode(t, code, c), d, codeD);
      } else {
        DecodeFirst(h, Encode(t, d, codeD), code, c);
        TwoCharacters(t, d, codeD, code[1], code[2]);
        EncodeFirst(h, Decode(t, code, c), d, codeD);
        if h == '%' && StartsWith(t, [code[1], code[2]]) {
          assert t[0] == t[..2][0] && t[1] == t[..2][1];
          EncodePair(t, d, codeD);
          assert Encode(t, d, codeD)[2..] == Encode(t[2..], d, codeD);
          Commute(t[2..], d, codeD, code, c);
          EncodeFirst(c, Decode(t[2..], code, c), d, codeD);
        }
      }
    }
  }

  lemma EncodeFirst(h: char, s: string, c: char, code: string)
    ensures Encode([h] + s, c, code) == (if h == c then code else [h]) + Encode(s, c, code)
  {
  }

  /** Decoding passes over another code. */
  lemma SkipCode(s: string, other: string, code: string, c: char)
    requires |other| == 3 && other[0] == '%' && other[1] != '%' && other[2] != '%'
    requires IsCode(code, c) && other[1] != code[1]
    ensures Decode(other + s, code, c) == other + Decode(s, code, c)
  {
    var x, y, z := other[0], other[1], other[2];
    var s2 := [z] + s;
    var s1 := [y] + s2;
    ThreeInFront(x, y, z, s);
    ThreeInFront(x, y, z, Decode(s, code, c));
    assert other == [x, y, z];
    DecodeFirst(z, s, code, c);
    DecodeFirst(y, s2, code, c);
    DecodeFirst(x, s1, code, c);
    StartsWithTwo(s1, code[1], code[2]);
    hide Decode, StartsWith;
  }

  lemma ThreeInFront(x: char, y: char, z: char, s: string)
    ensures [x, y, z] + s == [x] + ([y] + ([z] + s))
  {
  }

  lemma {:induction false} DecodeChangesIff(s: string, code: string, c: char)
    requires IsCode(code, c)
    ensures if Occurs(code, s) then |Decode(s, code, c)| < |s| else Decode(s, code, c) == s
  {
    NeverLonger(s, code, c);
    if s != "" {
      if StartsWith(s, code) {
        assert s[0..] == s;
        NeverLonger(s[3..], code, c);
      } else {
        DecodeChangesIff(s[1..], code, c);
        assert s == [s[0]] + s[1..];
        OccursLater(s, code);
      }
    }
  }

  lemma OccursLater(s: string, code: string)
    requires s != "" && code != "" && !StartsWith(s, code)
    ensures Occurs(code, s) <==> Occurs(code, s[1..])
  {
    if Occurs(code, s) {
      var i :| 0 <= i <= |s| && StartsWith(s[i..], code);
      assert s[0..] == s;
      assert s[1..][i - 1..] == s[i..];
    }
    if Occurs(code, s[1..]) {
      var i :| 0 <= i <= |s[1..]| && StartsWith(s[1..][i..], code);
      assert s[1..][i..] == s[i + 1..];
    }
  }

  lemma {:induction false} NeverLonger(s: string, code: string, c: char)
    requires |code| == 3
    ensures |Decode(s, code, c)| <= |s|
    decreases |s|
  {
    if s != "" {
      if StartsWith(s, code) { NeverLonger(s[3..], code, c); } else { NeverLonger(s[1..], code, c); }
    }
  }

  // ----- Escaping values -----

  function Escape(v: string): string {
    Encode(Encode(v, PAIR_DELIMITER, PAIR_CODE), FIELD_DELIMITER, FIELD_CODE)
  }

  function Unescape(w: string): string {
    Decode(Decode(w, PAIR_CODE, PAIR_DELIMITER), FIELD_CODE, FIELD_DELIMITER)
  }

  /** Escaping is undone for the delimiters; codes that the value itself held are decoded as well. */
  lemma UnescapeEscape(v: string)
    ensures Unescape(Escape(v)) == Unescape(v)
  {
    Commute(Encode(v, PAIR_DELIMITER, PAIR_CODE), FIELD_DELIMITER, FIELD_CODE, PAIR_CODE, PAIR_DELIMITER);
    DecodeEncode(v, PAIR_DELIMITER, PAIR_CODE);
    DecodeEncode(Decode(v, PAIR_CODE, PAIR_DELIMITER), FIELD_DELIMITER, FIELD_CODE);
  }

  /** A value survives the wire exactly if it holds no NUL and neither code. */
  predicate Survives(v: string) { NUL !in v && !Occurs(PAIR_CODE, v) && !Occurs(FIELD_CODE, v) }

  lemma SurvivesIff(v: string)
    ensures Unescape(WithoutNuls(v)) == v <==> Survives(v)
  {
    var w := WithoutNuls(v);
    var d := Decode(w, PAIR_CODE, PAIR_DELIMITER);
    DecodeChangesIff(w, PAIR_CODE, PAIR_DELIMITER);
    DecodeChangesIff(d, FIELD_CODE, FIELD_DELIMITER);
    if NUL in v { ShorterWithoutNul(v); }
  }

  lemma {:induction false} ShorterWithoutNul(v: string)
    requires NUL in v
    ensures |WithoutNuls(v)| < |v|
  {
    var n := |v| - 1;
    if v[n] != NUL {
      assert v == v[..n] + [v[n]];
      ShorterWithoutNul(v[..n]);
    }
  }

  // ----- Messages -----

  /** A key and the text that stands after the colon. */
  datatype Field = Field(key: string, text: string)
  {
    function Raw(): string { key + [PAIR_DELIMITER] + text }
  }

  function Raws(fields: seq<Field>): (r: seq<string>)
    ensures |r| == |fields| && forall i :: 0 <= i < |fields| ==> r[i] == fields[i].Raw()
  {
    seq(|fields|, i requires 0 <= i < |fields| => fields[i].Raw())
  }

  datatype Result<T> = Ok(value: T) | Error(message: string)

  const RESERVED := {"msgid", "k", "c", "chanid"}

  /** The fields of a message whose caller passes the entries: the command first, the network's own fields last. */
  function MessageFields(cmd: string, entries: seq<Field>, guid: string, id: string, now: string): (r: seq<Field>)
  {
    [Field("c", cmd)] + Escaped(entries) + [Field("msgid", guid), Field("k", id), Field("tm", now)]
  }

  function Escaped(entries: seq<Field>): (r: seq<Field>)
    ensures |r| == |entries|
    ensures forall i :: 0 <= i < |entries| ==> r[i] == Field(entries[i].key, Escape(entries[i].text))
  {
    seq(|entries|, i requires 0 <= i < |entries| => Field(entries[i].key, Escape(entries[i].text)))
  }

  function Message(cmd: string, entries: seq<Field>, guid: string, id: string, now: string): string {
    WithoutNuls(Join(Raws(MessageFields(cmd, entries, guid, id, now)), FIELD_DELIMITER))
  }

  /** Both gossip functions, up to the text that is put into the network. entries is the map in its iteration order. */
  method Gossip(cmd: string, entries: seq<Field>, guid: string, id: string, now: string) returns (r: Result<string>)
    ensures r.Ok? <==> forall i :: 0 <= i < |entries| ==> entries[i].key !in RESERVED
    ensures r.Ok? ==> r.value == Message(cmd, entries, guid, id, now)
  {
    var msg := "c:" + cmd;
    ghost var fields := [Field("c", cmd)];
    FirstField(cmd);
    EscapedEnds(entries);
    hide *;
    for i := 0 to |entries|
      invariant |fields| >= 1 && fields == [Field("c", cmd)] + Escaped(entries[..i])
      invariant msg == Join(Raws(fields), FIELD_DELIMITER)
      invariant forall k :: 0 <= k < i ==> entries[k].key !in RESERVED
    {
      if entries[i].key in RESERVED {
        return Error("The key " + entries[i].key + " Can't be used because it is reserved.");
      }
      ghost var field := Field(entries[i].key, Escape(entries[i].text));
      AppendField(fields, field);
      EscapedNext(entries, i);
      msg := Append(msg, entries[i].key, Escape(entries[i].text));
      fields := fields + [field];
    }
    MessageText(cmd, entries, guid, id, now);
    msg := Append(msg, "msgid", guid);
    msg := Append(msg, "k", id);
    msg := Append(msg, "tm", now);
    msg := RemoveNullTerminators(msg);
    return Ok(msg);
  }

  /** What both functions do for every field but the first. */
  function Append(msg: string, key: string, text: string): string {
    msg + [FIELD_DELIMITER] + key + [PAIR_DELIMITER] + text
  }

  lemma FirstField(cmd: string)
    ensures Join(Raws([Field("c", cmd)]), FIELD_DELIMITER) == "c:" + cmd
  {
  }

  lemma EscapedEnds(entries: seq<Field>)
    ensures Escaped(entries[..0]) == [] && entries[..|entries|] == entries
  {
  }

  lemma EscapedNext(entries: seq<Field>, i: nat)
    requires i < |entries|
    ensures Escaped(entries[..i + 1]) == Escaped(entries[..i]) + [Field(entries[i].key, Escape(entries[i].text))]
  {
  }

  lemma MessageText(cmd: string, entries: seq<Field>, guid: string, id: string, now: string)
    ensures var msg := Join(Raws([Field("c", cmd)] + Escaped(entries)), FIELD_DELIMITER);
      Message(cmd, entries, guid, id, now) ==
        WithoutNuls(Append(Append(Append(msg, "msgid", guid), "k", id), "tm", now))
  {
    var fields := [Field("c", cmd)] + Escaped(entries);
    AppendField(fields, Field("msgid", guid));
    AppendField(fields + [Field("msgid", guid)], Field("k", id));
    AppendField(fields + [Field("msgid", guid)] + [Field("k", id)], Field("tm", now));
    hide Append, Join, Raws;
    assert MessageFields(cmd, entries, guid, id, now) ==
      fields + [Field("msgid", guid)] + [Field("k", id)] + [Field("tm", now)];
  }

  lemma JoinOne(piece: string)
    ensures Join([piece], FIELD_DELIMITER) == piece
  {
  }

  lemma AppendField(fields: seq<Field>, field: Field)
    requires |fields| >= 1
    ensures Join(Raws(fields + [field]), FIELD_DELIMITER) ==
      Append(Join(Raws(fields), FIELD_DELIMITER), field.key, field.text)
  {
    assert Raws(fields + [field]) == Raws(fields) + [field.Raw()];
    JoinLast(Raws(fields), field.Raw(), FIELD_DELIMITER);
    Reassociate(Join(Raws(fields), FIELD_DELIMITER), field);
  }

  lemma Reassociate(before: string, field: Field)
    ensures before + [FIELD_DELIMITER] + field.Raw() == Append(before, field.key, field.text)
  {
  }

  // ----- Reading -----

  /** insert() keeps what a key already has. */
  function Put(m: map<string, string>, key: string, value: string): map<string, string> {
    if key in m then m else m[key := value]
  }

  /** The fields of the pieces; None where a piece has no colon and std::out_of_range is thrown. */
  function FieldsOf(pieces: seq<string>): (r: Result<map<string, string>>) {
    if pieces == [] then Ok(map[])
    else
      var before, parts := FieldsOf(pieces[..|pieces| - 1]), Split(pieces[|pieces| - 1], PAIR_DELIMITER);
      if before.Error? then before
      else if |parts| < 2 then Error("The data is corrupt. No field-value pair could be extracted.")
      else Ok(Put(before.value, parts[0], Unescape(parts[1])))
  }

  lemma {:induction false} ErrorStays(pieces: seq<string>, k: nat)
    requires k <= |pieces| && FieldsOf(pieces[..k]).Error?
    ensures FieldsOf(pieces) == FieldsOf(pieces[..k])
  {
    hide Split, Unescape, Put;
    if k < |pieces| {
      var n := |pieces| - 1;
      assert pieces[..n][..k] == pieces[..k];
      ErrorStays(pieces[..n], k);
    } else {
      assert pieces[..k] == pieces;
    }
  }

  method GetFieldsAndValues(input: string) returns (r: Result<map<string, string>>)
    ensures r == FieldsOf(Split(input, FIELD_DELIMITER))
  {
    var pairs := Split(input, FIELD_DELIMITER);
    var hashMap := map[];
    hide Split, Unescape;
    for i := 0 to |pairs|
      invariant FieldsOf(pairs[..i]) == Ok(hashMap)
    {
      assert pairs[..i + 1][..i] == pairs[..i];
      var fieldAndValue := Split(pairs[i], PAIR_DELIMITER);
      if |fieldAndValue| < 2 {
        ErrorStays(pairs, i + 1);
        return Error("The data is corrupt. No field-value pair could be extracted.");
      }
      var value := Unescape(fieldAndValue[1]);
      if fieldAndValue[0] !in hashMap {
        hashMap := hashMap[fieldAndValue[0] := value];
      }
    }
    assert pairs[..|pairs|] == pairs;
    return Ok(hashMap);
  }

  // ----- The round trip -----

  predicate NoDelimiter(s: string) { FIELD_DELIMITER !in s && PAIR_DELIMITER !in s }

  lemma {:induction false} EncodeRemoves(s: string, c: char, code: string)
    requires c !in code
    ensures c !in Encode(s, c, code)
    ensures forall d :: d in Encode(s, c, code) ==> d in s || d in code
  {
    if s != "" { EncodeRemoves(s[1..], c, code); }
  }

  lemma EscapeHasNoDelimiter(v: string)
    ensures NoDelimiter(Escape(v))
  {
    EncodeRemoves(v, PAIR_DELIMITER, PAIR_CODE);
    EncodeRemoves(Encode(v, PAIR_DELIMITER, PAIR_CODE), FIELD_DELIMITER, FIELD_CODE);
  }

  lemma {:induction false} NulsBeforeOrAfterEncoding(v: string, c: char, code: string)
    requires NUL !in code && c != NUL
    ensures WithoutNuls(Encode(v, c, code)) == Encode(WithoutNuls(v), c, code)
  {
    if v != "" {
      var h, t := v[0], v[1..];
      assert v == [h] + t;
      NulsBeforeOrAfterEncoding(t, c, code);
      WithoutNulsFirst(h, t);
      WithoutNulsOfSum(code, Encode(t, c, code));
      WithoutNulsFirst(h, Encode(t, c, code));
      EncodeFirst(h, WithoutNuls(t), c, code);
    }
  }

  /** The fields as they come out of a message. */
  function Stripped(fields: seq<Field>): (r: seq<Field>)
    ensures |r| == |fields|
    ensures forall i :: 0 <= i < |fields| ==> r[i] == Field(WithoutNuls(fields[i].key), WithoutNuls(fields[i].text))
  {
    seq(|fields|, i requires 0 <= i < |fields| => Field(WithoutNuls(fields[i].key), WithoutNuls(fields[i].text)))
  }

  lemma {:induction false} StrippedMessage(fields: seq<Field>)
    requires |fields| >= 1
    ensures WithoutNuls(Join(Raws(fields), FIELD_DELIMITER)) == Join(Raws(Stripped(fields)), FIELD_DELIMITER)
  {
    hide WithoutNuls, Join;
    var n := |fields| - 1;
    var last := fields[n];
    StrippedRaw(last);
    if n == 0 {
      assert Raws(fields) == [last.Raw()];
      assert Raws(Stripped(fields)) == [WithoutNuls(last.Raw())];
      JoinOne(last.Raw());
      JoinOne(WithoutNuls(last.Raw()));
    } else {
      var before := fields[..n];
      StrippedMessage(before);
      assert Raws(fields) == Raws(before) + [last.Raw()];
      JoinLast(Raws(before), last.Raw(), FIELD_DELIMITER);
      assert Raws(Stripped(fields)) == Raws(Stripped(before)) + [WithoutNuls(last.Raw())];
      JoinLast(Raws(Stripped(before)), WithoutNuls(last.Raw()), FIELD_DELIMITER);
      StrippedSum(Join(Raws(before), FIELD_DELIMITER), last.Raw());
    }
  }

  lemma StrippedSum(before: string, raw: string)
    ensures WithoutNuls(before + [FIELD_DELIMITER] + raw) == WithoutNuls(before) + [FIELD_DELIMITER] + WithoutNuls(raw)
  {
    WithoutNulsOfSum(before + [FIELD_DELIMITER], raw);
    WithoutNulsOfSum(before, [FIELD_DELIMITER]);
  }

  lemma StrippedRaw(f: Field)
    ensures WithoutNuls(f.Raw()) == Field(WithoutNuls(f.key), WithoutNuls(f.text)).Raw()
  {
    WithoutNulsOfSum(f.key + [PAIR_DELIMITER], f.text);
    WithoutNulsOfSum(f.key, [PAIR_DELIMITER]);
  }

  /** The map that fields make, the first of each key winning. */
  function MapOf(fields: seq<Field>): map<string, string> {
    if fields == [] then map[]
    else
      var last := fields[|fields| - 1];
      Put(MapOf(fields[..|fields| - 1]), last.key, Unescape(last.text))
  }

  lemma {:induction false} FieldsOfRaws(fields: seq<Field>)
    requires forall i :: 0 <= i < |fields| ==> NoDelimiter(fields[i].key) && NoDelimiter(fields[i].text)
    ensures FieldsOf(Raws(fields)) == Ok(MapOf(fields))
  {
    if fields != [] {
      var n := |fields| - 1;
      var last := fields[n];
      assert Raws(fields)[..n] == Raws(fields[..n]);
      FieldsOfRaws(fields[..n]);
      SplitFirst(last.key, last.text, PAIR_DELIMITER);
      SplitWhole(last.text, PAIR_DELIMITER);
    }
  }

  /** What is read is the map of the fields, whatever the values hold. */
  lemma ReadMessage(fields: seq<Field>)
    requires |fields| >= 1
    requires forall i :: 0 <= i < |fields| ==> NoDelimiter(fields[i].key) && NoDelimiter(fields[i].text)
    ensures FieldsOf(Split(WithoutNuls(Join(Raws(fields), FIELD_DELIMITER)), FIELD_DELIMITER)) ==
      Ok(MapOf(Stripped(fields)))
  {
    StrippedMessage(fields);
    var stripped := Stripped(fields);
    forall i | 0 <= i < |stripped|
      ensures NoDelimiter(stripped[i].key) && NoDelimiter(stripped[i].text) && FIELD_DELIMITER !in Raws(stripped)[i]
    {
      NoNewCharacters(fields[i].key);
      NoNewCharacters(fields[i].text);
    }
    SplitJoin(Raws(stripped), FIELD_DELIMITER);
    FieldsOfRaws(stripped);
  }

  lemma {:induction false} NoNewCharacters(s: string)
    ensures forall c :: c in WithoutNuls(s) ==> c in s
  {
    if s != "" {
      NoNewCharacters(s[..|s| - 1]);
      assert s == s[..|s| - 1] + [s[|s| - 1]];
    }
  }

  predicate DistinctFrom(key: string, fields: seq<Field>) { forall i :: 0 <= i < |fields| ==> fields[i].key != key }

  /** The value of a key is that of the first field with it. */
  lemma {:induction false} FirstWins(fields: seq<Field>, k: nat)
    requires k < |fields| && DistinctFrom(fields[k].key, fields[..k])
    ensures fields[k].key in MapOf(fields) && MapOf(fields)[fields[k].key] == Unescape(fields[k].text)
  {
    var n := |fields| - 1;
    if k < n {
      assert fields[..n][..k] == fields[..k];
      FirstWins(fields[..n], k);
    } else {
      KeysOfMap(fields[..n]);
    }
  }

  lemma {:induction false} KeysOfMap(fields: seq<Field>)
    ensures forall key :: key in MapOf(fields) <==> !DistinctFrom(key, fields)
  {
    if fields != [] {
      var n := |fields| - 1;
      KeysOfMap(fields[..n]);
      assert forall key :: DistinctFrom(key, fields) <==> DistinctFrom(key, fields[..n]) && fields[n].key != key;
    }
  }

  /** Texts of the network's own fields: letters and digits. */
  predicate Plain(s: string) { NoDelimiter(s) && Survives(s) }

  predicate GoodEntries(entries: seq<Field>) {
    && (forall i :: 0 <= i < |entries| ==>
      entries[i].key !in RESERVED && NoDelimiter(entries[i].key) && NUL !in entries[i].key)
    && (forall i, j :: 0 <= i < j < |entries| ==> entries[i].key != entries[j].key)
  }

  /** What is read of a value: its codes decoded, its NULs gone. */
  lemma ValueRead(v: string)
    ensures Unescape(WithoutNuls(Escape(v))) == Unescape(WithoutNuls(v))
  {
    NulsBeforeOrAfterEncoding(v, PAIR_DELIMITER, PAIR_CODE);
    NulsBeforeOrAfterEncoding(Encode(v, PAIR_DELIMITER, PAIR_CODE), FIELD_DELIMITER, FIELD_CODE);
    UnescapeEscape(WithoutNuls(v));
  }

  lemma MessageIsRead(cmd: string, entries: seq<Field>, guid: string, id: string, now: string)
    requires GoodEntries(entries) && Plain(cmd) && Plain(guid) && Plain(id) && Plain(now)
    ensures var fields := MessageFields(cmd, entries, guid, id, now);
      FieldsOf(Split(Message(cmd, entries, guid, id, now), FIELD_DELIMITER)) == Ok(MapOf(Stripped(fields)))
  {
    var fields := MessageFields(cmd, entries, guid, id, now);
    forall i | 0 <= i < |fields| ensures NoDelimiter(fields[i].key) && NoDelimiter(fields[i].text) {
      if 1 <= i <= |entries| {
        assert fields[i] == Escaped(entries)[i - 1];
        EscapeHasNoDelimiter(entries[i - 1].text);
      }
    }
    ReadMessage(fields);
  }

  /** A field is read if no field before it has its key. */
  lemma FieldRead(fields: seq<Field>, k: nat)
    requires k < |fields| && DistinctFrom(fields[k].key, fields[..k])
    requires forall i :: 0 <= i <= k ==> NUL !in fields[i].key
    ensures var m := MapOf(Stripped(fields));
      fields[k].key in m && m[fields[k].key] == Unescape(WithoutNuls(fields[k].text))
  {
    var stripped := Stripped(fields);
    assert DistinctFrom(stripped[k].key, stripped[..k]) by {
      assert forall i :: 0 <= i < k ==> stripped[..k][i].key == fields[..k][i].key;
    }
    FirstWins(stripped, k);
  }

  /**
   Whatever the values and the order of the entries: the reader finds every entry, with the value's NULs removed and
   its own codes decoded, and the network's fields; a "tm" that the caller passes wins over the appended one.
   */
  lemma MessageRoundTrip(cmd: string, entries: seq<Field>, guid: string, id: string, now: string)
    requires GoodEntries(entries) && Plain(cmd) && Plain(guid) && Plain(id) && Plain(now)
    ensures var r := FieldsOf(Split(Message(cmd, entries, guid, id, now), FIELD_DELIMITER));
      && r.Ok?
      && (forall i :: 0 <= i < |entries| ==>
           entries[i].key in r.value && r.value[entries[i].key] == Unescape(WithoutNuls(entries[i].text)))
      && "c" in r.value && r.value["c"] == cmd
      && "msgid" in r.value && r.value["msgid"] == guid
      && "k" in r.value && r.value["k"] == id
      && "tm" in r.value && (DistinctFrom("tm", entries) ==> r.value["tm"] == now)
      && (forall key :: key in r.value ==> key in {"c", "msgid", "k", "tm"} || !DistinctFrom(key, entries))
  {
    var fields, n := MessageFields(cmd, entries, guid, id, now), |entries|;
    var m := MapOf(Stripped(fields));
    MessageIsRead(cmd, entries, guid, id, now);
    forall i | 0 <= i < n ensures entries[i].key in m && m[entries[i].key] == Unescape(WithoutNuls(entries[i].text)) {
      EntryRead(cmd, entries, guid, id, now, i);
    }
    OwnFieldsRead(cmd, entries, guid, id, now);
    KeysOfMap(Stripped(fields));
    forall key | key in m ensures key in {"c", "msgid", "k", "tm"} || !DistinctFrom(key, entries) {
      KeyOrigin(cmd, entries, guid, id, now, key);
    }
  }

  lemma EntryRead(cmd: string, entries: seq<Field>, guid: string, id: string, now: string, i: nat)
    requires GoodEntries(entries) && i < |entries|
    ensures var m := MapOf(Stripped(MessageFields(cmd, entries, guid, id, now)));
      entries[i].key in m && m[entries[i].key] == Unescape(WithoutNuls(entries[i].text))
  {
    hide *;
    var fields := MessageFields(cmd, entries, guid, id, now);
    ValueRead(entries[i].text);
    EntryFields(cmd, entries, guid, id, now);
    NewKey(fields, entries, i);
    FieldRead(fields, i + 1);
  }

  /** The key of an entry is not that of a field before it. */
  lemma NewKey(fields: seq<Field>, entries: seq<Field>, i: nat)
    requires GoodEntries(entries) && i < |entries| < |fields| && fields[0].key == "c"
    requires forall j :: 1 <= j <= |entries| ==> fields[j].key == entries[j - 1].key
    ensures DistinctFrom(fields[i + 1].key, fields[..i + 1]) && forall j :: 0 <= j <= i + 1 ==> NUL !in fields[j].key
  {
    forall j | 0 <= j <= i + 1 ensures NUL !in fields[j].key && (j <= i ==> fields[j].key != fields[i + 1].key) {
      Unreserved(entries, i);
      if j > 0 { Unreserved(entries, j - 1); }
    }
  }

  lemma Unreserved(entries: seq<Field>, i: nat)
    requires GoodEntries(entries) && i < |entries|
    ensures NUL !in entries[i].key && entries[i].key != "c" && entries[i].key != "msgid" && entries[i].key != "k"
  {
  }

  /** Where a message's fields are. */
  lemma EntryFields(cmd: string, entries: seq<Field>, guid: string, id: string, now: string)
    ensures var fields, n := MessageFields(cmd, entries, guid, id, now), |entries|;
      && |fields| == n + 4 && fields[0] == Field("c", cmd) && NUL !in "c"
      && (forall j :: 1 <= j <= n ==> fields[j] == Field(entries[j - 1].key, Escape(entries[j - 1].text)))
  {
  }

  lemma LastFields(cmd: string, entries: seq<Field>, guid: string, id: string, now: string)
    ensures var fields, n := MessageFields(cmd, entries, guid, id, now), |entries|;
      && |fields| == n + 4
      && fields[n + 1] == Field("msgid", guid) && fields[n + 2] == Field("k", id) && fields[n + 3] == Field("tm", now)
  {
  }

  /** The keys of the network's own fields. */
  lemma OwnKeys()
    ensures NUL !in "c" && NUL !in "msgid" && NUL !in "k" && NUL !in "tm"
    ensures "c" != "msgid" && "c" != "k" && "c" != "tm" && "msgid" != "k" && "msgid" != "tm" && "k" != "tm"
  {
  }

  /** The network's field at position k of a message comes back, if no entry has its key. */
  lemma OwnFieldRead(cmd: string, entries: seq<Field>, guid: string, id: string, now: string, k: nat)
    requires GoodEntries(entries) && k < |entries| + 4 && (k == 0 || k > |entries|)
    requires k == |entries| + 3 ==> DistinctFrom("tm", entries)
    ensures var fields := MessageFields(cmd, entries, guid, id, now);
      var m := MapOf(Stripped(fields));
      fields[k].key in m && (Survives(fields[k].text) ==> m[fields[k].key] == fields[k].text)
  {
    var fields, n := MessageFields(cmd, entries, guid, id, now), |entries|;
    EntryFields(cmd, entries, guid, id, now);
    LastFields(cmd, entries, guid, id, now);
    OwnKeys();
    SurvivesIff(fields[k].text);
    forall i | 0 <= i < n
      ensures NUL !in entries[i].key && entries[i].key != "c" && entries[i].key != "msgid" && entries[i].key != "k"
    {
      Unreserved(entries, i);
    }
    hide MapOf, Unescape, WithoutNuls, Escape, Survives, GoodEntries, MessageFields, Stripped;
    forall j | 0 <= j < k ensures fields[j].key != fields[k].key {
      if 1 <= j <= n { assert fields[j].key == entries[j - 1].key; }
    }
    forall j | 0 <= j <= k ensures NUL !in fields[j].key {
      if 1 <= j <= n { assert fields[j].key == entries[j - 1].key; }
    }
    FieldRead(fields, k);
  }

  lemma OwnFieldsRead(cmd: string, entries: seq<Field>, guid: string, id: string, now: string)
    requires GoodEntries(entries) && Plain(cmd) && Plain(guid) && Plain(id) && Plain(now)
    ensures var m := MapOf(Stripped(MessageFields(cmd, entries, guid, id, now)));
      && "c" in m && m["c"] == cmd && "msgid" in m && m["msgid"] == guid && "k" in m && m["k"] == id
      && "tm" in m && (DistinctFrom("tm", entries) ==> m["tm"] == now)
  {
    var n := |entries|;
    EntryFields(cmd, entries, guid, id, now);
    LastFields(cmd, entries, guid, id, now);
    hide MapOf, Unescape, WithoutNuls, Escape, Survives, GoodEntries, MessageFields, Stripped;
    OwnFieldRead(cmd, entries, guid, id, now, 0);
    OwnFieldRead(cmd, entries, guid, id, now, n + 1);
    OwnFieldRead(cmd, entries, guid, id, now, n + 2);
    if DistinctFrom("tm", entries) {
      OwnFieldRead(cmd, entries, guid, id, now, n + 3);
    } else {
      var i :| 0 <= i < n && entries[i].key == "tm";
      EntryRead(cmd, entries, guid, id, now, i);
    }
  }

  lemma KeyOrigin(cmd: string, entries: seq<Field>, guid: string, id: string, now: string, key: string)
    requires GoodEntries(entries) && key in MapOf(Stripped(MessageFields(cmd, entries, guid, id, now)))
    ensures key in {"c", "msgid", "k", "tm"} || !DistinctFrom(key, entries)
  {
    var fields := MessageFields(cmd, entries, guid, id, now);
    KeysOfMap(Stripped(fields));
    hide MapOf, MessageFields, WithoutNuls;
    var j :| 0 <= j < |fields| && Stripped(fields)[j].key == key;
    OwnOrEntry(cmd, entries, guid, id, now, j);
  }

  lemma OwnOrEntry(cmd: string, entries: seq<Field>, guid: string, id: string, now: string, j: nat)
    requires GoodEntries(entries) && j < |MessageFields(cmd, entries, guid, id, now)|
    ensures var key := WithoutNuls(MessageFields(cmd, entries, guid, id, now)[j].key);
      key in {"c", "msgid", "k", "tm"} || !DistinctFrom(key, entries)
  {
  }

  /** An entry comes back unchanged exactly if its value survives. */
  lemma EntrySurvivesIff(cmd: string, entries: seq<Field>, guid: string, id: string, now: string, i: nat)
    requires GoodEntries(entries) && Plain(cmd) && Plain(guid) && Plain(id) && Plain(now) && i < |entries|
    ensures var r := FieldsOf(Split(Message(cmd, entries, guid, id, now), FIELD_DELIMITER));
      r.Ok? && entries[i].key in r.value && (r.value[entries[i].key] == entries[i].text <==> Survives(entries[i].text))
  {
    MessageRoundTrip(cmd, entries, guid, id, now);
    SurvivesIff(entries[i].text);
  }
}
