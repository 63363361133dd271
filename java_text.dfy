/** The two pieces of the Java standard library the registry's configuration
    parser leans on: `String.split` with a one-character literal separator,
    and `Integer.parseInt`. */
module JavaText {

  datatype Option<T> = None | Some(value: T)

  /** Bounds of a Java `int`. */
  const IntMin: int := -0x8000_0000
  const IntMax: int := 0x7fff_ffff

  predicate NoSep(s: string, sep: char) {
    forall i :: 0 <= i < |s| ==> s[i] != sep
  }

  predicate AllSep(s: string, sep: char) {
    forall i :: 0 <= i < |s| ==> s[i] == sep
  }

  /** Every piece of `s` between occurrences of `sep`, empty ones included:
      there is always one more piece than there are separators. */
  function Pieces(s: string, sep: char): (r: seq<string>)
    ensures |r| >= 1
  {
    if s == [] then [""]
    else
      var rest := Pieces(s[1..], sep);
      if s[0] == sep then [""] + rest
      else [[s[0]] + rest[0]] + rest[1..]
  }

  /** The inverse of `Pieces`: the pieces glued back together with `sep`. */
  function Join(ps: seq<string>, sep: char): string
    requires |ps| >= 1
  {
    if |ps| == 1 then ps[0] else ps[0] + [sep] + Join(ps[1..], sep)
  }

  /** Drops the empty strings at the end of a piece list. */
  function DropTrailingEmpty(ps: seq<string>): (r: seq<string>)
    ensures |r| <= |ps| && r == ps[..|r|]
    ensures r != [] ==> r[|r| - 1] != ""
    ensures forall i :: |r| <= i < |ps| ==> ps[i] == ""
  {
    if ps == [] then []
    else if ps[|ps| - 1] == "" then DropTrailingEmpty(ps[..|ps| - 1])
    else ps
  }

  /** `s.split(sep)` in Java, for a separator that is not a regular-expression
      metacharacter and the default limit 0: with no match the whole string is
      the only element; otherwise a leading empty piece is kept and trailing
      empty pieces are removed. */
  function Split(s: string, sep: char): seq<string>
  {
    if NoSep(s, sep) then [s] else DropTrailingEmpty(Pieces(s, sep))
  }

  lemma {:induction false} PiecesLackSep(s: string, sep: char)
    ensures forall i :: 0 <= i < |Pieces(s, sep)| ==> NoSep(Pieces(s, sep)[i], sep)
  {
    if s != [] {
      PiecesLackSep(s[1..], sep);
    }
  }

  /** Gluing the pieces back together gives the original string. */
  lemma {:induction false} JoinPieces(s: string, sep: char)
    ensures Join(Pieces(s, sep), sep) == s
  {
    if s != [] {
      var rest := Pieces(s[1..], sep);
      JoinPieces(s[1..], sep);
      if s[0] == sep {
        assert ([""] + rest)[1..] == rest;
      } else if |rest| > 1 {
        var ps := [[s[0]] + rest[0]] + rest[1..];
        assert ps[1..] == rest[1..];
        assert Join(rest, sep) == rest[0] + [sep] + Join(rest[1..], sep);
        assert s == [s[0]] + s[1..];
      } else {
        assert s == [s[0]] + s[1..];
      }
    }
  }

  /** A prefix free of separators joins the first piece of what follows it. */
  lemma {:induction false} PiecesPrefix(p: string, t: string, sep: char)
    requires NoSep(p, sep)
    ensures Pieces(p + t, sep) == [p + Pieces(t, sep)[0]] + Pieces(t, sep)[1..]
  {
    if p == [] {
      assert p + t == t;
      assert p + Pieces(t, sep)[0] == Pieces(t, sep)[0];
      assert Pieces(t, sep) == [Pieces(t, sep)[0]] + Pieces(t, sep)[1..];
    } else {
      assert (p + t)[0] == p[0];
      assert (p + t)[1..] == p[1..] + t;
      PiecesPrefix(p[1..], t, sep);
      assert [p[0]] + (p[1..] + Pieces(t, sep)[0]) == p + Pieces(t, sep)[0];
    }
  }

  /** Cutting at the separators undoes `Join` for separator-free pieces. */
  lemma {:induction false} PiecesOfJoin(ps: seq<string>, sep: char)
    requires |ps| >= 1
    requires forall i :: 0 <= i < |ps| ==> NoSep(ps[i], sep)
    ensures Pieces(Join(ps, sep), sep) == ps
  {
    if |ps| == 1 {
      PiecesPrefix(ps[0], "", sep);
      assert ps[0] + "" == ps[0];
    } else {
      var u := Join(ps[1..], sep);
      PiecesOfJoin(ps[1..], sep);
      var t := [sep] + u;
      assert t[0] == sep && t[1..] == u;
      assert Pieces(t, sep) == [""] + ps[1..];
      PiecesPrefix(ps[0], t, sep);
      assert ps[0] + [sep] + u == ps[0] + t;
      assert ps[0] + "" == ps[0];
      assert ps == [ps[0]] + ps[1..];
    }
  }

  lemma JoinHasSep(ps: seq<string>, sep: char)
    requires |ps| >= 2
    ensures !NoSep(Join(ps, sep), sep)
  {
    assert Join(ps, sep)[|ps[0]|] == sep;
  }

  /** No element of a split contains the separator. */
  lemma SplitLacksSep(s: string, sep: char)
    ensures forall i :: 0 <= i < |Split(s, sep)| ==> NoSep(Split(s, sep)[i], sep)
  {
    PiecesLackSep(s, sep);
  }

  lemma {:induction false} AllPiecesEmpty(s: string, sep: char)
    ensures (forall i :: 0 <= i < |Pieces(s, sep)| ==> Pieces(s, sep)[i] == "") <==> AllSep(s, sep)
  {
    if s != [] {
      AllPiecesEmpty(s[1..], sep);
      var rest := Pieces(s[1..], sep);
      if s[0] == sep {
        var ps := Pieces(s, sep);
        assert ps == [""] + rest;
        assert (forall i :: 0 <= i < |ps| ==> ps[i] == "") <==> (forall j :: 0 <= j < |rest| ==> rest[j] == "") by {
          assert forall j :: 0 <= j < |rest| ==> ps[j + 1] == rest[j];
        }
        assert AllSep(s, sep) <==> AllSep(s[1..], sep) by {
          assert forall j :: 0 <= j < |s[1..]| ==> s[1..][j] == s[j + 1];
        }
      } else {
        assert Pieces(s, sep)[0] != "";
      }
    }
  }

  /** Java's split yields no element at all exactly when the string is one
      or more separators and nothing else. */
  lemma SplitIsEmpty(s: string, sep: char)
    ensures Split(s, sep) == [] <==> s != [] && AllSep(s, sep)
  {
    if !NoSep(s, sep) {
      AllPiecesEmpty(s, sep);
      var ps := Pieces(s, sep);
      if DropTrailingEmpty(ps) == [] {
        assert forall i :: 0 <= i < |ps| ==> ps[i] == "";
      } else {
        var r := DropTrailingEmpty(ps);
        var k := |r| - 1;
        assert ps[k] == r[k];
        assert ps[k] != "";
        assert !(forall i :: 0 <= i < |ps| ==> ps[i] == "");
      }
    } else if s != [] {
      assert s[0] != sep;
    }
  }

  /** `Split` undoes `Join` when no piece holds the separator and the last
      piece is not empty (otherwise Java drops it). */
  lemma SplitJoin(ps: seq<string>, sep: char)
    requires |ps| >= 1 && ps[|ps| - 1] != ""
    requires forall i :: 0 <= i < |ps| ==> NoSep(ps[i], sep)
    ensures Split(Join(ps, sep), sep) == ps
  {
    if |ps| >= 2 {
      JoinHasSep(ps, sep);
      PiecesOfJoin(ps, sep);
    }
  }

  // ---------------------------------------------------------------------------
  // Integer.parseInt

  predicate IsDigit(c: char) { '0' <= c <= '9' }

  predicate AllDigits(ds: string) {
    forall i :: 0 <= i < |ds| ==> IsDigit(ds[i])
  }

  /** The value of a string of decimal digits, most significant first. */
  function DigitsValue(ds: string): nat
    requires AllDigits(ds)
  {
    if ds == [] then 0
    else DigitsValue(ds[..|ds| - 1]) * 10 + (ds[|ds| - 1] as int - '0' as int)
  }

  /** `Integer.parseInt(s)`: an optional `-` or `+`, then at least one ASCII
      digit, with a value that fits a Java `int`; `None` is the
      `NumberFormatException`. */
  function ParseInt(s: string): (r: Option<int>)
    ensures r.Some? ==> IntMin <= r.value <= IntMax
    ensures r.Some? ==> s != [] && (IsDigit(s[0]) || s[0] == '-' || s[0] == '+')
  {
    if s == [] then None
    else
      var signed := s[0] == '-' || s[0] == '+';
      var digits := if signed then s[1..] else s;
      if digits == [] || !AllDigits(digits) then None
      else
        var v := if s[0] == '-' then -(DigitsValue(digits) as int) else DigitsValue(digits);
        if IntMin <= v <= IntMax then Some(v) else None
  }

  /** The decimal text of a natural number, without sign or leading zeros. */
  function Decimal(n: nat): (r: string)
    ensures r != [] && AllDigits(r)
  {
    if n < 10 then [('0' as int + n) as char]
    else Decimal(n / 10) + [('0' as int + n % 10) as char]
  }

  lemma {:induction false} DecimalValue(n: nat)
    ensures DigitsValue(Decimal(n)) == n
  {
    if n >= 10 {
      DecimalValue(n / 10);
      var ds := Decimal(n);
      assert ds[..|ds| - 1] == Decimal(n / 10);
    }
  }

  /** `parseInt` reads back what a decimal rendering of an `int` wrote,
      for either sign. */
  lemma ParseIntDecimal(n: nat)
    ensures n <= IntMax ==> ParseInt(Decimal(n)) == Some(n)
    ensures n <= -IntMin ==> ParseInt("-" + Decimal(n)) == Some(-(n as int))
  {
    DecimalValue(n);
    var ds := Decimal(n);
    assert IsDigit(ds[0]);
    assert ("-" + ds)[1..] == ds;
  }
}
