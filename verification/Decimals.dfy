/** Numbers read from their decimal spelling, against the spelling printed digit by digit. */
module Decimals {
  predicate IsDigit(c: char) {
    '0' <= c <= '9'
  }

  predicate IsNumeric(s: string) {
    s != "" && forall i | 0 <= i < |s| :: IsDigit(s[i])
  }

  function Value(s: string): nat
    requires forall i | 0 <= i < |s| :: IsDigit(s[i])
  {
    if s == "" then 0 else
    assert IsDigit(s[|s| - 1]);
    10 * Value(s[..|s| - 1]) + (s[|s| - 1] - '0') as int
  }

  // ---- What a spelling is ----

  /** The number as one writes it, with no leading zero. */
  function Decimal(n: nat): (s: string)
    ensures |s| > 0
  {
    (if n < 10 then "" else Decimal(n / 10)) + ["0123456789"[n % 10]]
  }

  function Zeros(k: nat): (s: string)
    ensures |s| == k
  {
    if k == 0 then "" else "0" + Zeros(k - 1)
  }

  /** s is the number as one writes it, perhaps after some zeros. */
  predicate Spells(s: string, n: nat) {
    |Decimal(n)| <= |s| && s == Zeros(|s| - |Decimal(n)|) + Decimal(n)
  }

  lemma {:induction false} ZerosAreZeros(k: nat, i: nat)
    requires i < k
    ensures Zeros(k)[i] == '0'
  {
    if i > 0 {
      ZerosAreZeros(k - 1, i - 1);
    }
  }

  lemma {:induction false} OneMoreZero(k: nat)
    ensures Zeros(k) + "0" == Zeros(k + 1)
  {
    forall i | 0 <= i < k + 1 ensures (Zeros(k) + "0")[i] == Zeros(k + 1)[i] {
      ZerosAreZeros(k + 1, i);
      if i < k {
        ZerosAreZeros(k, i);
      }
    }
  }

  /** Spelling one digit more. */
  lemma SpellsOneMore(t: string, c: char, n: nat)
    requires t != ""
    ensures Spells(t + [c], n) <==> c == "0123456789"[n % 10] && Spells(t, n / 10)
  {
    var s, last := t + [c], "0123456789"[n % 10];
    var front := if n < 10 then "" else Decimal(n / 10);
    assert Decimal(n) == front + [last];
    if |front| <= |t| {
      var zeros := Zeros(|t| - |front|);
      assert zeros + (front + [last]) == (zeros + front) + [last];
      assert Spells(s, n) <==> s == (zeros + front) + [last];
      LastApart(t, c, zeros + front, last);
      if n < 10 {
        assert zeros + front == zeros && Decimal(n / 10) == "0";
        OneMoreZero(|t| - 1);
      }
    } else {
      assert n >= 10;
    }
  }

  lemma LastApart(t: string, c: char, u: string, d: char)
    ensures t + [c] == u + [d] <==> t == u && c == d
  {
    if t + [c] == u + [d] {
      assert |t| == |u| && (t + [c])[|t|] == c && (u + [d])[|u|] == d;
      assert t == (t + [c])[..|t|] && u == (u + [d])[..|u|];
    }
  }

  lemma SpellsOneDigit(c: char, n: nat)
    ensures Spells([c], n) <==> n < 10 && c == "0123456789"[n % 10]
  {
    assert n < 10 ==> Decimal(n) == ["0123456789"[n % 10]] && Zeros(0) + Decimal(n) == Decimal(n);
    assert n >= 10 ==> |Decimal(n)| == |Decimal(n / 10)| + 1;
    assert [c] == ["0123456789"[n % 10]] ==> [c][0] == "0123456789"[n % 10];
  }

  lemma DigitOf(c: char, d: nat)
    requires d < 10
    ensures c == "0123456789"[d] <==> IsDigit(c) && (c - '0') as int == d
  {
  }

  /** Reading is the inverse of writing: the digits have the value n exactly when they spell n. */
  lemma {:induction false} ReadsWhatIsSpelt(s: string, n: nat)
    ensures Spells(s, n) <==> IsNumeric(s) && Value(s) == n
    decreases |s|
  {
    if s == "" {
    } else {
      var t, c := s[..|s| - 1], s[|s| - 1];
      assert s == t + [c];
      DigitOf(c, n % 10);
      if t == "" {
        assert s == [c] && Value(t) == 0;
        SpellsOneDigit(c, n);
      } else {
        SpellsOneMore(t, c, n);
        ReadsWhatIsSpelt(t, n / 10);
        assert IsNumeric(s) <==> IsNumeric(t) && IsDigit(c) by {
          assert forall i | 0 <= i < |t| :: s[i] == t[i];
        }
      }
    }
  }
}
