/** Matching a symbol: the C++ handler trims the wire field, the Python script pads the symbol. */
module Symbols {
  import opened Bytes
  import opened Messages

  predicate NoTrailingSpace(s: seq<Byte>) {
    s == [] || s[|s| - 1] != SPACE
  }

  /** Trimming removes trailing spaces and nothing else. */
  lemma {:induction false} TrimSplits(field: seq<Byte>)
    ensures NoTrailingSpace(Trim(field)) && |Trim(field)| <= |field|
    ensures field == Trim(field) + Spaces(|field| - |Trim(field)|)
  {
    if field != [] && field[|field| - 1] == SPACE {
      var n := |field| - 1;
      TrimSplits(field[..n]);
      assert Spaces(n + 1 - |Trim(field)|) == Spaces(n - |Trim(field)|) + [SPACE];
      assert field == field[..n] + [SPACE];
    } else {
      assert Spaces(0) == [];
    }
  }

  /** Padding a trimmed field to its width gives the field back. */
  lemma TrimThenPad(field: seq<Byte>)
    ensures Ljust(Trim(field), |field|) == field
  {
    hide Trim;
    TrimSplits(field);
  }

  lemma {:induction false} TrimPadded(s: seq<Byte>, n: nat)
    requires NoTrailingSpace(s)
    ensures Trim(s + Spaces(n)) == s
  {
    if n == 0 {
      assert s + Spaces(0) == s;
    } else {
      var padded := s + Spaces(n);
      assert padded[..|padded| - 1] == s + Spaces(n - 1);
      TrimPadded(s, n - 1);
    }
  }

  lemma MatchOne(symbol: seq<Byte>, field: seq<Byte>)
    requires |field| == 8 && (|symbol| > 8 || NoTrailingSpace(symbol))
    ensures Trim(field) == symbol <==> field == Ljust(symbol, 8)
  {
    TrimSplits(field);
    if |symbol| <= 8 {
      TrimThenPad(field);
      TrimPadded(symbol, if |symbol| < 8 then 8 - |symbol| else 0);
    } else {
      assert |Ljust(symbol, 8)| > 8;
    }
  }

  /** The two handlers match a symbol on the same fields exactly when it has no trailing space or is
      longer than the field, in which case neither ever matches. */
  lemma MatchersAgree(symbol: seq<Byte>)
    ensures (forall field: Stock :: Trim(field) == symbol <==> field == Ljust(symbol, 8))
       <==> |symbol| > 8 || NoTrailingSpace(symbol)
  {
    if |symbol| > 8 || NoTrailingSpace(symbol) {
      forall field: Stock
        ensures Trim(field) == symbol <==> field == Ljust(symbol, 8)
      {
        MatchOne(symbol, field);
      }
    } else {
      var field: Stock := Ljust(symbol, 8);
      TrimSplits(field);
      assert Trim(field) != symbol;
    }
  }
}
