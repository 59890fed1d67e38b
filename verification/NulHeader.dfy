/**
 compressString and decompressString: a compressed text travels without its NULs, behind a header that
 lists where they were.
 */
module NulHeader {
  import opened Decimal
  import opened NumeralLists
  import opened Strings

  /** Undefined stands for reading or inserting past the end. */
  datatype Outcome = Ok(value: string) | Throws | Undefined

  const INT_MAX := 0x7FFF_FFFF

  // ----- std::stoi -----

  datatype Parsed = Number(value: int) | NoNumber | TooLarge

  predicate IsSpace(c: char) { c == ' ' || '\t' <= c <= '\r' }

  function SkipSpaces(s: string): string {
    if s != "" && IsSpace(s[0]) then SkipSpaces(s[1..]) else s
  }

  function LeadingDigits(s: string): (d: string)
    ensures forall i :: 0 <= i < |d| ==> IsDigit(d[i])
  {
    if s == "" || !IsDigit(s[0]) then "" else [s[0]] + LeadingDigits(s[1..])
  }

  function Stoi(s: string): Parsed {
    var t := SkipSpaces(s);
    var negative := t != "" && t[0] == '-';
    var digits := LeadingDigits(if t != "" && (t[0] == '-' || t[0] == '+') then t[1..] else t);
    if digits == "" then NoNumber
    else
      var size: int := DigitsValue(digits);
      var v := if negative then -size else size;
      if -INT_MAX - 1 <= v <= INT_MAX then Number(v) else TooLarge
  }

  predicate AllDigits(s: string) { forall i :: 0 <= i < |s| ==> IsDigit(s[i]) }

  lemma {:induction false} DigitsThenRest(digits: string, rest: string)
    requires AllDigits(digits) && (rest != "" ==> !IsDigit(rest[0]))
    ensures LeadingDigits(digits + rest) == digits
  {
    if digits == "" {
      assert "" + rest == rest;
    } else {
      DigitsThenRest(digits[1..], rest);
      assert (digits + rest)[1..] == digits[1..] + rest && [digits[0]] + digits[1..] == digits;
    }
  }

  lemma {:induction false} SpacesThenRest(spaces: string, rest: string)
    requires (forall i :: 0 <= i < |spaces| ==> IsSpace(spaces[i])) && (rest != "" ==> !IsSpace(rest[0]))
    ensures SkipSpaces(spaces + rest) == rest
  {
    if spaces == "" {
      assert "" + rest == rest;
    } else {
      SpacesThenRest(spaces[1..], rest);
      assert (spaces + rest)[1..] == spaces[1..] + rest;
    }
  }

  /** Tabs, line ends and the like have the codes 9 to 13, the blank has 32. */
  predicate IsBlank(s: string) { forall i :: 0 <= i < |s| ==> s[i] as int in {9, 10, 11, 12, 13, 32} }

  /**
   White space, a sign or none, digits, and anything that is no digit: the number is read and the rest ignored; without
   digits there is no number.
   */
  lemma StoiReads(spaces: string, sign: string, digits: string, rest: string)
    requires IsBlank(spaces) && sign in {"", "+", "-"} && AllDigits(digits)
    requires rest != "" ==> !IsDigit(rest[0]) && (sign + digits == "" ==> !IsBlank(rest[..1]) && rest[0] !in "+-")
    ensures Stoi(spaces + (sign + (digits + rest))) ==
      if digits == "" then NoNumber
      else
        var size: int := DigitsValue(digits);
        var v := if sign == "-" then -size else size;
        if -INT_MAX - 1 <= v <= INT_MAX then Number(v) else TooLarge
  {
    var t := sign + (digits + rest);
    DigitsThenRest(digits, rest);
    assert t != "" ==> t[0] == (if sign != "" then sign[0] else if digits != "" then digits[0] else rest[0]);
    SpacesThenRest(spaces, t);
    if sign == "" {
      assert t == digits + rest;
    } else {
      assert t[1..] == digits + rest;
    }
    hide LeadingDigits, SkipSpaces, DigitsValue;
  }

  lemma StoiOfString(n: nat)
    ensures Stoi(ToString(n)) == if n <= INT_MAX then Number(n) else TooLarge
  {
    var s := ToString(n);
    StoiReads("", "", s, "");
    assert "" + ("" + (s + "")) == s;
    ValueOfString(n);
  }

  // ----- Packing -----

  /** The header after k characters have been looked at. */
  function Header(z: string, k: nat): string
    requires k <= |z|
  {
    if k == 0 then ""
    else if z[k - 1] == NUL then AppendNumeral(Header(z, k - 1), k - 1)
    else Header(z, k - 1)
  }

  function Pack(z: string): string { Header(z, |z|) + "_" + WithoutNuls(z) }

  lemma HeaderNext(z: string, k: nat)
    requires k < |z|
    ensures Header(z, k + 1) == if z[k] == NUL then AppendNumeral(Header(z, k), k) else Header(z, k)
  {
  }

  lemma HeaderStart(z: string)
    ensures Header(z, 0) == ""
  {
  }

  /** The loop of compressString over the compressed text. */
  method StripNuls(z: string) returns (headers: string, stream: string)
    ensures headers == Header(z, |z|) && stream == WithoutNuls(z)
  {
    HeaderStart(z);
    CleanedEnds(z);
    hide *;
    stream, headers := z, "";
    var it, position := 0, 0;
    while it < |stream|
      invariant position <= |z| && it == Passed(z, position) && stream == Cleaned(z, position)
      invariant |stream| == it + |z| - position
      invariant headers == Header(z, position)
      decreases |stream| - it
    {
      EraseOrPass(z, position);
      HeaderNext(z, position);
      if stream[it] == NUL {
        headers := AppendNumeral(headers, position);
        stream := stream[..it] + stream[it + 1..];
      } else {
        it := it + 1;
      }
      position := position + 1;
    }
  }

  method PackNuls(z: string) returns (packet: string)
    ensures packet == Pack(z)
  {
    var headers, stream := StripNuls(z);
    packet := headers + "_" + stream;
  }

  // ----- Unpacking -----

  /** Inserts a NUL at every listed position, in order. */
  function InsertNuls(body: string, numerals: seq<string>): Outcome {
    if numerals == [] then Ok(body)
    else match InsertNuls(body, numerals[..|numerals| - 1])
      case Ok(s) => InsertNul(s, numerals[|numerals| - 1])
      case failed => failed
  }

  function InsertNul(s: string, numeral: string): Outcome {
    match Stoi(numeral)
    case Number(at) => if 0 <= at <= |s| then Ok(s[..at] + [NUL] + s[at..]) else Undefined
    case _ => Throws
  }

  function Unpack(data: string): Outcome {
    var parts := Split(data, '_');
    if |parts| < 2 then Undefined else InsertNuls(Join(parts[1..], '_'), Split(parts[0], ','))
  }

  lemma {:induction false} FailureStays(body: string, numerals: seq<string>, k: nat)
    requires k <= |numerals| && !InsertNuls(body, numerals[..k]).Ok?
    ensures InsertNuls(body, numerals) == InsertNuls(body, numerals[..k])
  {
    if k < |numerals| {
      var n := |numerals| - 1;
      assert numerals[..n][..k] == numerals[..k];
      FailureStays(body, numerals[..n], k);
    } else {
      assert numerals[..k] == numerals;
    }
  }

  method UnpackNuls(data: string) returns (r: Outcome)
    ensures r == Unpack(data)
  {
    var packetParts := Split(data, '_');
    if |packetParts| < 2 {
      return Undefined;
    }
    var compressed := packetParts[1];
    hide Stoi, Split;
    for i := 2 to |packetParts|
      invariant compressed == Join(packetParts[1..i], '_')
    {
      assert packetParts[1..i + 1][..i - 1] == packetParts[1..i];
      compressed := compressed + "_" + packetParts[i];
    }
    assert packetParts[1..|packetParts|] == packetParts[1..];
    ghost var body := compressed;
    var numerals := Split(packetParts[0], ',');
    hide Join;
    for i := 0 to |numerals|
      invariant InsertNuls(body, numerals[..i]) == Ok(compressed)
    {
      assert numerals[..i + 1][..i] == numerals[..i];
      var inserted := InsertNul(compressed, numerals[i]);
      assert InsertNuls(body, numerals[..i + 1]) == inserted;
      if !inserted.Ok? {
        FailureStays(body, numerals, i + 1);
        return inserted;
      }
      compressed := inserted.value;
    }
    assert numerals[..|numerals|] == numerals;
    return Ok(compressed);
  }

  // ----- The round trip -----

  /** The positions of the NULs among the first k characters. */
  function Positions(z: string, k: nat): (r: seq<nat>)
    requires k <= |z|
  {
    if k == 0 then []
    else if z[k - 1] == NUL then Positions(z, k - 1) + [k - 1]
    else Positions(z, k - 1)
  }

  lemma {:induction false} HeaderLists(z: string, k: nat)
    requires k <= |z|
    ensures Header(z, k) == NumeralList(Positions(z, k))
    ensures Positions(z, k) == [] <==> NUL !in z[..k]
  {
    if k > 0 {
      HeaderLists(z, k - 1);
      assert z[..k] == z[..k - 1] + [z[k - 1]];
      hide NumeralList;
      if z[k - 1] == NUL {
        NumeralListNext(Positions(z, k - 1), k - 1);
      }
    }
  }

  lemma InsertOneMore(body: string, positions: seq<nat>, n: nat, s: string)
    requires InsertNuls(body, Numerals(positions)) == Ok(s)
    ensures InsertNuls(body, Numerals(positions + [n])) == InsertNul(s, ToString(n))
  {
    var all := Numerals(positions + [n]);
    assert all[..|positions|] == Numerals(positions);
  }

  /** Inserting the first NULs restores the text up to where they end. */
  lemma {:induction false} InsertRestores(z: string, k: nat)
    requires k <= |z| <= INT_MAX + 1
    ensures InsertNuls(WithoutNuls(z), Numerals(Positions(z, k))) == Ok(z[..k] + WithoutNuls(z[k..]))
  {
    if k == 0 {
      assert z[0..] == z && z[..0] + WithoutNuls(z) == WithoutNuls(z);
    } else {
      InsertRestores(z, k - 1);
      InsertNext(z, k - 1);
      if z[k - 1] == NUL {
        InsertOneMore(WithoutNuls(z), Positions(z, k - 1), k - 1, z[..k - 1] + WithoutNuls(z[k - 1..]));
      }
    }
  }

  lemma InsertNext(z: string, k: nat)
    requires k < |z| <= INT_MAX + 1
    ensures var before := z[..k] + WithoutNuls(z[k..]);
      (if z[k] == NUL then InsertNul(before, ToString(k)) else Ok(before)) == Ok(z[..k + 1] + WithoutNuls(z[k + 1..]))
  {
    hide *;
    RestOf(z, k);
    var head, rest := z[..k], WithoutNuls(z[k + 1..]);
    assert z[..k + 1] == head + [z[k]];
    if z[k] == NUL {
      InsertAfter(head, rest);
    } else {
      Shift(head, z[k], rest);
    }
  }

  lemma InsertAfter(before: string, rest: string)
    requires |before| <= INT_MAX
    ensures InsertNul(before + rest, ToString(|before|)) == Ok(before + [NUL] + rest)
  {
    StoiOfString(|before|);
    Shift(before, NUL, rest);
  }

  lemma Shift(before: string, c: char, rest: string)
    ensures before + ([c] + rest) == before + [c] + rest
    ensures (before + rest)[..|before|] + [c] + (before + rest)[|before|..] == before + [c] + rest
  {
  }

  lemma RestOf(z: string, k: nat)
    requires k < |z|
    ensures WithoutNuls(z[k..]) == if z[k] == NUL then WithoutNuls(z[k + 1..]) else [z[k]] + WithoutNuls(z[k + 1..])
  {
    assert z[k..] == [z[k]] + z[k + 1..];
    WithoutNulsFirst(z[k], z[k + 1..]);
  }

  /**
   Unpacking gives back every packed text that holds a NUL, whatever underscores and commas it holds; a text without
   one gets an empty header, on which std::stoi throws.
   */
  lemma UnpackPack(z: string)
    requires |z| <= INT_MAX + 1
    ensures Unpack(Pack(z)) == if NUL in z then Ok(z) else Throws
  {
    var header, body, positions := Header(z, |z|), WithoutNuls(z), Positions(z, |z|);
    HeaderLists(z, |z|);
    HasNo(positions, '_');
    UnpackParts(header, body);
    SplitNumeralList(positions);
    assert z[..|z|] == z;
    if NUL in z {
      InsertRestores(z, |z|);
      hide WithoutNuls;
      assert z[|z|..] == "";
      NothingLeft(z);
    } else {
      NothingInserted(body);
    }
  }

  lemma NothingLeft(z: string)
    ensures z + WithoutNuls("") == z
  {
  }

  lemma NothingInserted(body: string)
    ensures InsertNuls(body, [""]) == Throws
  {
  }

  lemma UnpackParts(header: string, body: string)
    requires '_' !in header
    ensures Unpack(header + "_" + body) == InsertNuls(body, Split(header, ','))
  {
    SplitFirst(header, body, '_');
    assert header + ['_'] + body == header + "_" + body;
    JoinSplit(body, '_');
    assert ([header] + Split(body, '_'))[1..] == Split(body, '_');
  }

  function Compress(data: string, deflate: string -> string): string { Pack(deflate(WithoutNuls(data))) }

  function Decompress(packet: string, inflate: string -> Outcome): Outcome {
    match Unpack(packet)
    case Ok(z) => inflate(z)
    case failed => failed
  }

  /** A text comes back from compression exactly if it holds no NUL and its compressed form holds one. */
  lemma DecompressCompress(data: string, deflate: string -> string, inflate: string -> Outcome)
    requires forall d :: inflate(deflate(d)) == Ok(d)
    requires |deflate(WithoutNuls(data))| <= INT_MAX + 1
    ensures Decompress(Compress(data, deflate), inflate) == Ok(data) <==>
      NUL !in data && NUL in deflate(WithoutNuls(data))
  {
    UnpackPack(deflate(WithoutNuls(data)));
  }
}
