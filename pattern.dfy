/**
 * The anchored regular expressions the validators test: a pattern is a
 * sequence of atoms, each a literal character or a run of `min..max` ASCII
 * digits (`\d{min,max}`), matched against the whole string.
 */
module Pattern {
  import opened Text

  datatype Atom = Lit(c: char) | Digits(min: nat, max: nat)

  /** `^p$`.test(s)`: `s` splits into consecutive pieces, one per atom. */
  predicate Matches(p: seq<Atom>, s: string)
    decreases |p|
  {
    if p == [] then s == []
    else match p[0]
      case Lit(c) => s != [] && s[0] == c && Matches(p[1..], s[1..])
      case Digits(min, max) =>
        exists k :: min <= k <= max && k <= |s| && AllDigits(s[..k]) && Matches(p[1..], s[k..])
  }

  /** `/^\d{3}-\d{4}$/`. */
  const PostalCode: seq<Atom> := [Digits(3, 3), Lit('-'), Digits(4, 4)]

  /** `/^\d{2,3}\/\d{2,3}$/`. */
  const BloodPressure: seq<Atom> := [Digits(2, 3), Lit('/'), Digits(2, 3)]

  lemma MatchesDigits(min: nat, max: nat, s: string)
    ensures Matches([Digits(min, max)], s) <==> min <= |s| <= max && AllDigits(s)
  {
    if min <= |s| <= max && AllDigits(s) {
      assert s[..|s|] == s && s[|s|..] == [];
    }
  }

  lemma MatchesLitThen(c: char, rest: seq<Atom>, s: string)
    ensures Matches([Lit(c)] + rest, s) <==> s != [] && s[0] == c && Matches(rest, s[1..])
  {
    assert ([Lit(c)] + rest)[1..] == rest;
  }

  lemma MatchesDigitsThen(min: nat, max: nat, rest: seq<Atom>, s: string)
    ensures Matches([Digits(min, max)] + rest, s)
            <==> exists k :: min <= k <= max && k <= |s| && AllDigits(s[..k]) && Matches(rest, s[k..])
  {
    assert ([Digits(min, max)] + rest)[1..] == rest;
  }

  /** A string matches the postal-code pattern iff it is three digits, `-`, four digits. */
  lemma PostalCodeShape(s: string)
    ensures Matches(PostalCode, s)
            <==> |s| == 8 && s[3] == '-' && AllDigits(s[..3]) && AllDigits(s[4..])
  {
    var tail := [Lit('-'), Digits(4, 4)];
    assert PostalCode == [Digits(3, 3)] + tail;
    assert tail == [Lit('-')] + [Digits(4, 4)];
    MatchesDigitsThen(3, 3, tail, s);
    if |s| >= 3 {
      MatchesLitThen('-', [Digits(4, 4)], s[3..]);
      if |s| >= 4 {
        assert s[3..][1..] == s[4..];
        MatchesDigits(4, 4, s[4..]);
      }
    }
  }

  /** A string matches the blood-pressure pattern iff it is 2-3 digits, `/`, 2-3 digits. */
  lemma BloodPressureShape(s: string)
    ensures Matches(BloodPressure, s)
            <==> exists i :: 2 <= i <= 3 && i < |s| && s[i] == '/' && AllDigits(s[..i])
                             && 2 <= |s| - i - 1 <= 3 && AllDigits(s[i + 1..])
  {
    var tail := [Lit('/'), Digits(2, 3)];
    assert BloodPressure == [Digits(2, 3)] + tail;
    assert tail == [Lit('/')] + [Digits(2, 3)];
    MatchesDigitsThen(2, 3, tail, s);
    forall i | 2 <= i <= 3 && i <= |s|
      ensures Matches(tail, s[i..])
              <==> i < |s| && s[i] == '/' && 2 <= |s| - i - 1 <= 3 && AllDigits(s[i + 1..])
    {
      MatchesLitThen('/', [Digits(2, 3)], s[i..]);
      if i < |s| {
        assert s[i..][1..] == s[i + 1..];
        MatchesDigits(2, 3, s[i + 1..]);
      }
    }
  }
}
