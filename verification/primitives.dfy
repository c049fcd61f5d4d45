/** The library calls the ledger relies on. SHA-256, `json.dumps(..., sort_keys=True)`
    and Python's `repr` of the pending list are left uninterpreted: they are fields of a
    `Crypto` value handed to the ledger. Python's `str(int)` and the slice `s[:k]` are
    defined here, because the proof-of-work check depends on exactly what they do. */
module Primitives {
  import opened Records

  /** The foreign functions. `sha256Hex` maps a text to the lowercase hex digest of the
      SHA-256 of its UTF-8 encoding; `jsonDumps` is `json.dumps` with sorted keys;
      `reprTransactions` is the text an f-string gives for a list of transaction dicts. */
  datatype Crypto = Crypto(
    sha256Hex: string -> string,
    jsonDumps: Hashable -> string,
    reprTransactions: seq<Transaction> -> string)

  function DigitChar(d: nat): char
    requires d < 10
  {
    "0123456789"[d]
  }

  function DigitValue(ch: char): nat
  {
    if '0' <= ch <= '9' then (ch as int - '0' as int) as nat else 0
  }

  /** `str(n)` for a non-negative Python int: its decimal digits, no leading zeros. */
  function Decimal(n: nat): (s: string)
    ensures |s| >= 1
    ensures forall i :: 0 <= i < |s| ==> '0' <= s[i] <= '9'
    ensures s[0] == '0' ==> n == 0
  {
    if n < 10 then [DigitChar(n)] else Decimal(n / 10) + [DigitChar(n % 10)]
  }

  /** Reads a string of decimal digits back as a number (`int(s)`). */
  function DecimalValue(s: string): nat
  {
    if s == [] then 0 else DecimalValue(s[..|s| - 1]) * 10 + DigitValue(s[|s| - 1])
  }

  /** `int(str(n)) == n`: the decimal rendering loses nothing. */
  lemma {:induction false} DecimalRoundTrip(n: nat)
    ensures DecimalValue(Decimal(n)) == n
  {
    if n >= 10 {
      var s := Decimal(n);
      var front := Decimal(n / 10);
      assert s[..|s| - 1] == front;
      DecimalRoundTrip(n / 10);
    }
  }

  /** Distinct numbers render as distinct texts. */
  lemma DecimalInjective(m: nat, n: nat)
    requires Decimal(m) == Decimal(n)
    ensures m == n
  {
    DecimalRoundTrip(m);
    DecimalRoundTrip(n);
  }

  /** Python's `s[:k]`: the first `k` characters, or all of `s` when it is shorter. */
  function SlicePrefix(s: string, k: nat): (r: string)
    ensures r <= s
    ensures |r| <= k
    ensures |r| < k ==> r == s
  {
    if |s| <= k then s else s[..k]
  }
}
