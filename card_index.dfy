/** The grid index of a card: the decimal text of its CardID with the id of
    its first custom deck removed from the front, read back as an integer
    (main.py, save_player_card). */
module CardIndex {
  import opened Errors

  predicate IsDigit(c: char) {
    '0' <= c <= '9'
  }

  predicate AllDigits(s: string) {
    forall i :: 0 <= i < |s| ==> IsDigit(s[i])
  }

  function DigitChar(d: nat): (c: char)
    requires d < 10
    ensures IsDigit(c) && c as int - '0' as int == d
  {
    ('0' as int + d) as char
  }

  function DigitValue(c: char): nat
    requires IsDigit(c)
  {
    c as int - '0' as int
  }

  /** Python's str() of a non-negative integer. */
  function Decimal(n: nat): (s: string)
    ensures |s| >= 1 && AllDigits(s)
    ensures s[0] == '0' ==> n == 0
    ensures n < 10 <==> |s| == 1
    decreases n
  {
    if n < 10 then [DigitChar(n)] else Decimal(n / 10) + [DigitChar(n % 10)]
  }

  /** The value of a string of decimal digits, most significant first, as
      Python's int() reads it (leading zeros allowed). */
  function DigitsValue(s: string): nat
    requires AllDigits(s)
  {
    if s == [] then 0 else DigitsValue(s[..|s| - 1]) * 10 + DigitValue(s[|s| - 1])
  }

  /** Python's str.removeprefix. */
  function RemovePrefix(s: string, prefix: string): (r: string)
    ensures prefix <= s ==> prefix + r == s
    ensures !(prefix <= s) ==> r == s
  {
    if prefix <= s then s[|prefix|..] else s
  }

  /** int(str(cardId).removeprefix(deckId)).  The only way int() can fail on
      what is left is when nothing is left. */
  function GridIndex(cardId: nat, deckId: string): (r: Result<nat>)
    ensures r.Err? <==> deckId == Decimal(cardId)
    ensures r.Err? ==> r.error == EmptyIndexLiteral
  {
    var digits := Decimal(cardId);
    var rest := RemovePrefix(digits, deckId);
    assert forall i :: 0 <= i < |rest| ==> rest[i] == digits[|digits| - |rest| + i];
    if rest == [] then Err(EmptyIndexLiteral) else Ok(DigitsValue(rest))
  }

  /** Reading back the decimal text of a number gives the number. */
  lemma {:induction false} DecimalRoundTrip(n: nat)
    ensures DigitsValue(Decimal(n)) == n
    decreases n
  {
    if n >= 10 {
      var s := Decimal(n);
      assert s[..|s| - 1] == Decimal(n / 10);
      DecimalRoundTrip(n / 10);
    }
  }

  /** When the deck id is not a prefix of the CardID text, the CardID itself
      is the grid index. */
  lemma GridIndexWithoutPrefix(cardId: nat, deckId: string)
    requires !(deckId <= Decimal(cardId))
    ensures GridIndex(cardId, deckId) == Ok(cardId)
  {
    DecimalRoundTrip(cardId);
  }

  /** The two-digit text of a number below 100, with a leading zero. */
  function TwoDigits(k: nat): (s: string)
    requires k < 100
    ensures |s| == 2 && AllDigits(s)
  {
    [DigitChar(k / 10), DigitChar(k % 10)]
  }

  lemma TwoDigitsValue(k: nat)
    requires k < 100
    ensures DigitsValue(TwoDigits(k)) == k
  {
    var s := TwoDigits(k);
    var hi := [DigitChar(k / 10)];
    assert s[..1] == hi && hi[..0] == [];
    assert DigitsValue(hi) == DigitsValue([]) * 10 + k / 10;
    assert DigitsValue(s) == DigitsValue(hi) * 10 + k % 10;
  }

  lemma DecimalOfHundreds(deck: nat, k: nat)
    requires 0 < deck && k < 100
    ensures Decimal(deck * 100 + k) == Decimal(deck) + TwoDigits(k)
  {
    var n := deck * 100 + k;
    var m := deck * 10 + k / 10;
    assert n / 10 == m && n % 10 == k % 10;
    assert m / 10 == deck && m % 10 == k / 10;
    assert Decimal(n) == Decimal(m) + [DigitChar(k % 10)];
    assert Decimal(m) == Decimal(deck) + [DigitChar(k / 10)];
  }

  /** The decks of the manifest number their cards `deck * 100 + k`: the grid
      index derived from such a CardID and the deck's id is `k`, the two last
      decimal digits. */
  lemma GridIndexLastTwoDigits(deck: nat, k: nat)
    requires 0 < deck && k < 100
    ensures GridIndex(deck * 100 + k, Decimal(deck)) == Ok(k)
  {
    DecimalOfHundreds(deck, k);
    assert RemovePrefix(Decimal(deck * 100 + k), Decimal(deck)) == TwoDigits(k);
    TwoDigitsValue(k);
  }
}
