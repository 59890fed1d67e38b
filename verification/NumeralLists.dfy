/** Comma-separated lists of numbers, as the NUL header and the mayday packet write them. */
module NumeralLists {
  import opened Decimal
  import opened Strings

  function Numerals(numbers: seq<nat>): (r: seq<string>)
    ensures |r| == |numbers| && forall i :: 0 <= i < |r| ==> r[i] == ToString(numbers[i])
  {
    seq(|numbers|, i requires 0 <= i < |numbers| => ToString(numbers[i]))
  }

  function NumeralList(numbers: seq<nat>): string {
    if numbers == [] then "" else Join(Numerals(numbers), ',')
  }

  /** Appending a number to a list, as both loops do. */
  function AppendNumeral(list: string, n: nat): string {
    (if list != "" then list + [','] else list) + ToString(n)
  }

  lemma NumeralListNext(numbers: seq<nat>, n: nat)
    ensures NumeralList(numbers + [n]) == AppendNumeral(NumeralList(numbers), n)
  {
    NotEmpty(numbers);
    JoinLast(Numerals(numbers), ToString(n), ',');
    hide Join, ToString;
    assert Numerals(numbers + [n]) == Numerals(numbers) + [ToString(n)];
    assert "" + ToString(n) == ToString(n);
  }

  lemma {:induction false} NotEmpty(numbers: seq<nat>)
    ensures NumeralList(numbers) == "" <==> numbers == []
  {
  }

  /** A list is read back as the numerals it was made of; the empty list as one empty text. */
  lemma SplitNumeralList(numbers: seq<nat>)
    ensures Split(NumeralList(numbers), ',') == if numbers == [] then [""] else Numerals(numbers)
  {
    if numbers != [] {
      var numerals := Numerals(numbers);
      forall i | 0 <= i < |numerals| ensures ',' !in numerals[i] {
        assert !IsDigit(',');
      }
      SplitJoin(numerals, ',');
    }
  }

  lemma {:induction false} HasNo(numbers: seq<nat>, c: char)
    requires c != ',' && !IsDigit(c)
    ensures c !in NumeralList(numbers)
  {
    if numbers != [] {
      var n := |numbers| - 1;
      HasNo(numbers[..n], c);
      assert numbers == numbers[..n] + [numbers[n]];
      NumeralListNext(numbers[..n], numbers[n]);
    }
  }
}
