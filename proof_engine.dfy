/** The pure part of the ledger: the block hash, Python's `str` of an
    integer proof, and the proof-of-work predicate `valid_proof`. */
module ProofEngine {
  import opened Blocks

  /** `Blockchain.hash`: SHA-256 hex digest of the key-sorted JSON dump of
      a block. */
  function BlockHash(c: Crypto, b: Block): (h: HexDigest)
    ensures HexValue(h) < Pow16(64)
  {
    var h := c.sha256Hex(c.dumps(b));
    HexValueBelowPow(h);
    h
  }

  // ---------------------------------------------------------------------
  // str(proof): decimal rendering of an integer

  predicate IsDecimalDigit(ch: char) {
    '0' <= ch <= '9'
  }

  predicate AllDecimalDigits(s: string) {
    forall i :: 0 <= i < |s| ==> IsDecimalDigit(s[i])
  }

  function DigitChar(d: nat): (ch: char)
    requires d < 10
    ensures IsDecimalDigit(ch)
  {
    ('0' as int + d) as char
  }

  /** Value of a string of decimal digits, most significant first. */
  function DecimalValue(s: string): (v: nat)
    requires AllDecimalDigits(s)
  {
    if s == [] then 0
    else DecimalValue(s[..|s| - 1]) * 10 + (s[|s| - 1] as int - '0' as int)
  }

  /** The text Python prints for a non-negative integer: one or more
      digits, with no leading zero except in "0" itself. */
  predicate CanonicalDecimal(s: string) {
    |s| > 0 && AllDecimalDigits(s) && (s[0] == '0' ==> |s| == 1)
  }

  /** The text of Python's `str(n)`, characterised without computing it: a
      minus sign exactly for negative n, then the canonical digits of |n|. */
  predicate IsPythonIntText(s: string, n: int) {
    if n < 0 then
      |s| > 1 && s[0] == '-' && CanonicalDecimal(s[1..]) && DecimalValue(s[1..]) == -n
    else
      CanonicalDecimal(s) && DecimalValue(s) == n
  }

  /** Python's `str(n)` for `n >= 0`: at least one digit, all digits, and a
      leading `0` only for zero itself. */
  function NatToDecimal(n: nat): (s: string)
    ensures |s| > 0 && AllDecimalDigits(s)
    ensures s[0] == '0' <==> n == 0
    ensures n == 0 ==> s == "0"
    ensures CanonicalDecimal(s)
    decreases n
  {
    if n < 10 then [DigitChar(n)] else NatToDecimal(n / 10) + [DigitChar(n % 10)]
  }

  /** Reading back the digits of `NatToDecimal(n)` gives `n`. */
  lemma {:induction false} DecimalRoundTrip(n: nat)
    ensures DecimalValue(NatToDecimal(n)) == n
  {
    var s := NatToDecimal(n);
    if n >= 10 {
      assert s[..|s| - 1] == NatToDecimal(n / 10);
      DecimalRoundTrip(n / 10);
    }
  }

  /** Python's `str(n)` for any integer: a minus sign exactly when `n` is
      negative, followed by the digits of its magnitude. */
  function IntToDecimal(n: int): (s: string)
    ensures |s| > 0
    ensures s[0] == '-' <==> n < 0
    ensures n < 0 ==> |s| > 1 && AllDecimalDigits(s[1..]) && DecimalValue(s[1..]) == -n
    ensures n >= 0 ==> AllDecimalDigits(s) && DecimalValue(s) == n
    ensures n >= 0 && s[0] == '0' ==> |s| == 1
    ensures n < 0 ==> s[1] != '0'
    ensures IsPythonIntText(s, n)
  {
    if n < 0 then
      DecimalRoundTrip(-n);
      assert ("-" + NatToDecimal(-n))[1..] == NatToDecimal(-n);
      "-" + NatToDecimal(-n)
    else
      DecimalRoundTrip(n);
      NatToDecimal(n)
  }

  /** Different proofs are rendered as different strings, so for a fixed
      block string different proofs are checked against different guesses. */
  lemma IntToDecimalInjective(a: int, b: int)
    requires IntToDecimal(a) == IntToDecimal(b)
    ensures a == b
  {
  }

  /** A string of digits that does not start with '0' denotes at least 1. */
  lemma {:induction false} NonZeroLeadDigit(s: string)
    requires |s| > 0 && AllDecimalDigits(s) && s[0] != '0'
    ensures DecimalValue(s) >= 1
  {
    if |s| > 1 {
      var init := s[..|s| - 1];
      assert init[0] == s[0];
      NonZeroLeadDigit(init);
    }
  }

  /** A canonical decimal of one digit is below 10; a longer one is at least 10. */
  lemma CanonicalLengthBound(s: string)
    requires CanonicalDecimal(s)
    ensures |s| == 1 ==> DecimalValue(s) < 10
    ensures |s| >= 2 ==> DecimalValue(s) >= 10
  {
    if |s| >= 2 {
      var init := s[..|s| - 1];
      assert init[0] == s[0];
      NonZeroLeadDigit(init);
    } else {
      assert s[..0] == [];
    }
  }

  lemma SplitLastDigit(a: int, b: int, c: int, d: int)
    requires 0 <= b < 10 && 0 <= d < 10
    requires a * 10 + b == c * 10 + d
    ensures a == c && b == d
  {
  }

  /** Two canonical decimals with the same value are the same text. */
  lemma {:induction false} CanonicalDecimalUnique(s: string, t: string)
    requires CanonicalDecimal(s) && CanonicalDecimal(t)
    requires DecimalValue(s) == DecimalValue(t)
    ensures s == t
    decreases |s|
  {
    CanonicalLengthBound(s);
    CanonicalLengthBound(t);
    if |s| == 1 {
      assert s[..0] == [] && t[..0] == [];
      assert s == [s[0]] && t == [t[0]];
    } else {
      var si, ti := s[..|s| - 1], t[..|t| - 1];
      assert si[0] == s[0] && ti[0] == t[0];
      SplitLastDigit(DecimalValue(si), s[|s| - 1] as int - '0' as int,
                     DecimalValue(ti), t[|t| - 1] as int - '0' as int);
      CanonicalDecimalUnique(si, ti);
      assert s == si + [s[|s| - 1]] && t == ti + [t[|t| - 1]];
    }
  }

  /** `IntToDecimal(n)` is the only string that is Python's text for n, so the
      guess `valid_proof` hashes is exactly `block_string + str(proof)`. */
  lemma PythonIntTextUnique(n: int, s: string)
    requires IsPythonIntText(s, n)
    ensures s == IntToDecimal(n)
  {
    var r := IntToDecimal(n);
    if n < 0 {
      CanonicalDecimalUnique(s[1..], r[1..]);
      assert s == [s[0]] + s[1..] && r == [r[0]] + r[1..];
    } else {
      CanonicalDecimalUnique(s, r);
    }
  }

  // ---------------------------------------------------------------------
  // Reading a hex digest as a number

  function HexDigitValue(ch: char): (v: nat)
    ensures v < 16
    ensures IsHexChar(ch) ==> (v == 0 <==> ch == '0')
  {
    if '0' <= ch <= '9' then ch as int - '0' as int
    else if 'a' <= ch <= 'f' then ch as int - 'a' as int + 10
    else 0
  }

  predicate AllHex(s: string) {
    forall i :: 0 <= i < |s| ==> IsHexChar(s[i])
  }

  /** The number a hexadecimal string denotes, most significant digit first. */
  function HexValue(s: string): (v: nat) {
    if s == [] then 0 else HexValue(s[..|s| - 1]) * 16 + HexDigitValue(s[|s| - 1])
  }

  function Pow16(k: nat): (p: nat)
    ensures p >= 1
  {
    if k == 0 then 1 else 16 * Pow16(k - 1)
  }

  /** A hex string of length k denotes a number below 16^k. */
  lemma {:induction false} HexValueBelowPow(s: string)
    ensures HexValue(s) < Pow16(|s|)
  {
    if s != [] {
      var init := s[..|s| - 1];
      HexValueBelowPow(init);
      var v, p := HexValue(init), Pow16(|init|);
      assert v + 1 <= p;
      assert (v + 1) * 16 <= p * 16;
      assert HexValue(s) < (v + 1) * 16;
    }
  }

  lemma ShiftDigit(x: int, p: int, y: int, d: int)
    ensures (x * p + y) * 16 + d == x * (p * 16) + (y * 16 + d)
  {
  }

  /** Appending `b` to `a` shifts `a` left by |b| hex digits. */
  lemma {:induction false} HexValueAppend(a: string, b: string)
    ensures HexValue(a + b) == HexValue(a) * Pow16(|b|) + HexValue(b)
    decreases |b|
  {
    if b != [] {
      var b' := b[..|b| - 1];
      assert (a + b)[..|a + b| - 1] == a + b';
      assert (a + b)[|a + b| - 1] == b[|b| - 1];
      HexValueAppend(a, b');
      var x, p, y, d := HexValue(a), Pow16(|b'|), HexValue(b'), HexDigitValue(b[|b| - 1]);
      assert HexValue(a + b) == (x * p + y) * 16 + d;
      assert HexValue(b) == y * 16 + d;
      assert Pow16(|b|) == p * 16;
      ShiftDigit(x, p, y, d);
    } else {
      assert a + b == a;
    }
  }

  /** A hex string denotes zero exactly when all its characters are '0'. */
  lemma {:induction false} HexValueZero(s: string)
    requires AllHex(s)
    ensures HexValue(s) == 0 <==> forall i :: 0 <= i < |s| ==> s[i] == '0'
  {
    if s != [] {
      var init := s[..|s| - 1];
      assert AllHex(init);
      HexValueZero(init);
      assert IsHexChar(s[|s| - 1]);
      if HexValue(s) == 0 {
        assert HexValue(init) == 0;
        forall i | 0 <= i < |s|
          ensures s[i] == '0'
        {
          if i < |init| {
            assert s[i] == init[i];
          }
        }
      }
      if forall i :: 0 <= i < |s| ==> s[i] == '0' {
        assert forall i :: 0 <= i < |init| ==> init[i] == s[i];
      }
    }
  }

  lemma MulAtLeast(a: nat, p: nat)
    requires a >= 1
    ensures a * p >= p
  {
  }

  /** The first k hex digits of d are '0' exactly when d, read as a number,
      is below 16^(|d| - k): k leading zero hex digits are 4k leading zero
      bits. */
  lemma LeadingZerosMeanSmallValue(d: string, k: nat)
    requires AllHex(d) && k <= |d|
    ensures (forall i :: 0 <= i < k ==> d[i] == '0') <==> HexValue(d) < Pow16(|d| - k)
  {
    var hi, lo := d[..k], d[k..];
    assert d == hi + lo;
    assert AllHex(hi);
    HexValueAppend(hi, lo);
    HexValueBelowPow(lo);
    HexValueZero(hi);
    var p, h := Pow16(|lo|), HexValue(hi);
    assert HexValue(d) == h * p + HexValue(lo);
    if h != 0 {
      MulAtLeast(h, p);
    }
    assert (forall i :: 0 <= i < k ==> d[i] == '0') <==> (forall i :: 0 <= i < |hi| ==> hi[i] == '0');
  }

  // ---------------------------------------------------------------------
  // valid_proof

  /** Number of leading hex zeros `valid_proof` demands of the digest. */
  const Difficulty := 6

  /** The slice comparison `valid_proof` makes, read two ways. */
  lemma DigestCheck(d: HexDigest)
    ensures (d[..6] == "000000") <==> forall i :: 0 <= i < Difficulty ==> d[i] == '0'
    ensures (d[..6] == "000000") <==> HexValue(d) < Pow16(64 - Difficulty)
  {
    LeadingZerosMeanSmallValue(d, Difficulty);
    if forall i :: 0 <= i < Difficulty ==> d[i] == '0' {
      assert d[..6] == "000000";
    }
  }

  /** `Blockchain.valid_proof`: hash the block string followed by `str(proof)`
      and accept when the first six hex characters of the digest are all
      '0' -- equivalently, when the 256-bit digest is below 16^58 = 2^232,
      i.e. starts with 24 zero bits. */
  function ValidProof(c: Crypto, blockString: string, proof: int): (r: bool)
    ensures r <==> forall i :: 0 <= i < Difficulty ==>
                      c.sha256Hex(blockString + IntToDecimal(proof))[i] == '0'
    ensures r <==> HexValue(c.sha256Hex(blockString + IntToDecimal(proof))) < Pow16(64 - Difficulty)
  {
    var digest := c.sha256Hex(blockString + IntToDecimal(proof));
    DigestCheck(digest);
    digest[..6] == "000000"
  }
}
