/** backend/api/mixins.py: the id check shared by the user and recipe views
    and by the recipe filter. */
module Mixins {
  import opened Common
  import opened PyText

  /** `CheckIntOrStrMixin.validate_pk`: true exactly when `int(pk)` does not
      raise ValueError. It reads no state. */
  predicate ValidatePk(pk: string) {
    PyInt(pk).Some?
  }

  /** Every decimal rendering of an integer, padded with the whitespace
      `int()` skips or not, is accepted. */
  lemma ValidatePkAcceptsIntegers(n: int, before: string, after: string)
    requires forall i :: 0 <= i < |before| ==> IsIntSpace(before[i])
    requires forall i :: 0 <= i < |after| ==> IsIntSpace(after[i])
    ensures ValidatePk(before + DecimalString(n) + after)
  {
    PyIntReadsDecimal(n, before, after);
  }

  /** A string with no decimal digit in it is rejected, the empty string
      among them. */
  lemma ValidatePkNeedsDigit(pk: string)
    requires forall k :: 0 <= k < |pk| ==> !IsDigit(pk[k])
    ensures !ValidatePk(pk)
  {
    assert !IsDigitGroup(IntBody(pk)) by {
      IntBodyIsSlice(pk);
      if IntBody(pk) != [] {
        assert IntBody(pk)[0] == pk[IntBodyStart(pk)];
      }
    }
  }

  /** How `int()` treats a string with no whitespace at either end. */
  lemma Unpadded(pk: string)
    requires pk != [] && !IsPySpace(pk[0]) && !IsPySpace(pk[|pk| - 1])
    ensures Strip(pk) == pk
  {
    StripPadded("", pk, "");
    assert "" + pk + "" == pk;
  }

  /** Digits with single underscores between them, as in "1_000" or "007",
      are accepted, with or without a sign in front. */
  lemma ValidatePkAcceptsDigitGroups(digits: string)
    requires IsDigitGroup(digits)
    ensures ValidatePk(digits)
  {
    Unpadded(digits);
    assert !HasSign(digits);
    assert IntBody(digits) == digits;
  }

  lemma ValidatePkAcceptsSignedDigitGroups(sign: char, digits: string)
    requires sign == '+' || sign == '-'
    requires IsDigitGroup(digits)
    ensures ValidatePk([sign] + digits)
  {
    var s := [sign] + digits;
    Unpadded(s);
    assert HasSign(s);
    assert IntBody(s) == digits;
  }

  /** A non-whitespace character of `pk` survives stripping. */
  lemma InsideStrip(pk: string, k: int)
    requires 0 <= k < |pk| && !IsPySpace(pk[k])
    ensures var a := |pk| - |TrimLeft(pk)|;
            a <= k < a + |Strip(pk)| && Strip(pk)[k - a] == pk[k]
  {
    var left := TrimLeft(pk);
    var a := |pk| - |left|;
    assert a <= k by {
      if k < a { TrimLeftDropsSpace(pk, k); }
    }
    assert left[k - a] == pk[k];
    var t := TrimRight(left);
    assert k - a < |t| by {
      if |t| <= k - a { TrimRightDropsSpace(left, k - a); }
    }
    assert t == left[..|t|];
  }

  /** Where a character of `pk` that is neither whitespace nor a sign
      sits inside the text `int()` reads as digits. */
  lemma BodyIndex(pk: string, k: int)
    requires 0 <= k < |pk| && !IsPySpace(pk[k]) && pk[k] != '+' && pk[k] != '-'
    ensures 0 <= k - IntBodyStart(pk) < |IntBody(pk)|
    ensures IntBody(pk)[k - IntBodyStart(pk)] == pk[k]
  {
    InsideStrip(pk, k);
    var a := |pk| - |TrimLeft(pk)|;
    var t := Strip(pk);
    assert t[k - a] == pk[k];
    if HasSign(t) {
      assert k - a != 0;
      assert IntBodyStart(pk) == a + 1 && IntBody(pk) == t[1..];
    } else {
      assert IntBodyStart(pk) == a && IntBody(pk) == t;
    }
  }

  /** A character that is neither a digit, an underscore, a sign nor
      whitespace `int()` skips makes `int()` fail: "4.5", "12a", and an
      information separator anywhere, "\x1c5". */
  lemma ValidatePkRejectsForeignChar(pk: string, k: int)
    requires 0 <= k < |pk|
    requires !IsDigit(pk[k]) && pk[k] != '_' && pk[k] != '+' && pk[k] != '-' && !IsIntSpace(pk[k])
    ensures !ValidatePk(pk)
  {
    if !IsSeparatorControl(pk[k]) {
      BodyIndex(pk, k);
    }
  }

  /** Two underscores in a row make `int()` fail: "1__0". */
  lemma ValidatePkRejectsDoubleUnderscore(pk: string, k: int)
    requires 0 <= k < |pk| - 1 && pk[k] == '_' && pk[k + 1] == '_'
    ensures !ValidatePk(pk)
  {
    BodyIndex(pk, k);
    BodyIndex(pk, k + 1);
    var m := k - IntBodyStart(pk);
    var body := IntBody(pk);
    assert 0 <= m < |body| - 1;
    assert body[m] == '_' && body[m + 1] == '_';
    assert !IsDigitGroup(body);
  }
}
