/**
 * Error descriptions: looking an error number up in the linked-in error
 * tables and building the message that `strerror` returns.
 *
 * An error table is a sequence of (number, text) entries.  An entry matches a
 * query under a mask when the two numbers agree on every bit of the mask.
 * The closest description is the first exact match (ignoring only the sign
 * bit) or, failing that, the first entry with the same generic POSIX part.
 * The message is the description followed by the number in hexadecimal, or
 * "Error " and the number when there is no description, truncated to the
 * 64-byte message buffer.
 */
module StrError {

  import opened Optional

  const INT_MIN: int := -0x8000_0000
  const INT_MAX: int := 0x7fff_ffff

  /** A C `int`. */
  type Int = x: int | INT_MIN <= x <= INT_MAX

  /** One entry of an error table. */
  datatype ErrorTab = ErrorTab(errno: Int, text: string)

  /** Every bit except the sign bit: an exact match. */
  const EXACT_MASK: bv32 := 0x7fff_ffff

  /** The generic POSIX part of an error number. */
  const POSIX_MASK: bv32 := 0x4f00_00ff

  /** Size of the static message buffer, terminator included. */
  const ERRBUF_SIZE: nat := 64

  /** The two's-complement bit pattern of an `int`. */
  function Bits(x: Int): bv32
  {
    if x >= 0 then x as bv32 else (x + 0x1_0000_0000) as bv32
  }

  /** The entry agrees with `errno` on every bit of `mask`. */
  predicate Matches(entry: ErrorTab, errno: Int, mask: bv32)
  {
    (Bits(entry.errno) ^ Bits(errno)) & mask == 0
  }

  /** The index of the first entry at or after `i` that matches, if any. */
  function FirstMatchFrom(table: seq<ErrorTab>, errno: Int, mask: bv32, i: nat): (r: Option<nat>)
    requires i <= |table|
    ensures r.Some? ==> i <= r.value < |table| && Matches(table[r.value], errno, mask)
    ensures r.Some? ==> forall j :: i <= j < r.value ==> !Matches(table[j], errno, mask)
    ensures r.None? ==> forall j :: i <= j < |table| ==> !Matches(table[j], errno, mask)
    decreases |table| - i
  {
    if i == |table| then None
    else if Matches(table[i], errno, mask) then Some(i)
    else FirstMatchFrom(table, errno, mask, i + 1)
  }

  /** The index of the first entry of the table that matches, if any. */
  function FirstMatch(table: seq<ErrorTab>, errno: Int, mask: bv32): Option<nat>
  {
    FirstMatchFrom(table, errno, mask, 0)
  }

  /**
   * `find_error`: scan the table in order and stop at the first entry that
   * agrees with `errno` on the bits of `mask`.
   */
  method FindError(table: seq<ErrorTab>, errno: Int, mask: bv32) returns (r: Option<nat>)
    ensures r == FirstMatch(table, errno, mask)
  {
    var i := 0;
    while i < |table|
      invariant 0 <= i <= |table|
      invariant FirstMatchFrom(table, errno, mask, i) == FirstMatch(table, errno, mask)
    {
      if Matches(table[i], errno, mask) {
        return Some(i);
      }
      i := i + 1;
    }
    return None;
  }

  /** The entry `find_error` returns is the first one that matches; none means no entry matches. */
  lemma FirstMatchIsFirst(table: seq<ErrorTab>, errno: Int, mask: bv32)
    ensures FirstMatch(table, errno, mask).Some? ==>
              var k := FirstMatch(table, errno, mask).value;
              k < |table| && Matches(table[k], errno, mask) &&
              forall j :: 0 <= j < k ==> !Matches(table[j], errno, mask)
    ensures FirstMatch(table, errno, mask).None? <==>
              forall j :: 0 <= j < |table| ==> !Matches(table[j], errno, mask)
  {
  }

  /** The description `find_closest_error` picks: exact first, then generic POSIX. */
  function ClosestMatch(table: seq<ErrorTab>, errno: Int): Option<nat>
  {
    match FirstMatch(table, errno, EXACT_MASK)
    case Some(i) => Some(i)
    case None => FirstMatch(table, errno, POSIX_MASK)
  }

  /** `find_closest_error`. */
  method FindClosestError(table: seq<ErrorTab>, errno: Int) returns (r: Option<nat>)
    ensures r == ClosestMatch(table, errno)
  {
    r := FindError(table, errno, EXACT_MASK);
    if r.Some? {
      return;
    }
    r := FindError(table, errno, POSIX_MASK);
  }

  /** Agreement on every bit but the sign bit implies agreement on the generic POSIX bits. */
  lemma ExactImpliesPosix(entry: ErrorTab, errno: Int)
    requires Matches(entry, errno, EXACT_MASK)
    ensures Matches(entry, errno, POSIX_MASK)
  {
  }

  /**
   * An exact match wins whenever one exists; only when there is none does the
   * generic POSIX match decide.
   */
  lemma ClosestPrefersExact(table: seq<ErrorTab>, errno: Int)
    ensures (exists i :: 0 <= i < |table| && Matches(table[i], errno, EXACT_MASK)) ==>
              ClosestMatch(table, errno).Some? &&
              ClosestMatch(table, errno) == FirstMatch(table, errno, EXACT_MASK)
    ensures (forall i :: 0 <= i < |table| ==> !Matches(table[i], errno, EXACT_MASK)) ==>
              ClosestMatch(table, errno) == FirstMatch(table, errno, POSIX_MASK)
  {
    FirstMatchIsFirst(table, errno, EXACT_MASK);
  }

  /** Whatever `find_closest_error` returns agrees with the query on the generic POSIX bits. */
  lemma ClosestAgreesOnPosixBits(table: seq<ErrorTab>, errno: Int)
    ensures ClosestMatch(table, errno).Some? ==>
              ClosestMatch(table, errno).value < |table| &&
              Matches(table[ClosestMatch(table, errno).value], errno, POSIX_MASK)
  {
    match FirstMatch(table, errno, EXACT_MASK)
    case Some(i) =>
      ExactImpliesPosix(table[i], errno);
    case None =>
  }

  /** `find_closest_error` finds nothing only when no entry shares even the generic POSIX bits. */
  lemma ClosestNoneMeansNoPosixMatch(table: seq<ErrorTab>, errno: Int)
    ensures ClosestMatch(table, errno).None? <==>
              forall i :: 0 <= i < |table| ==> !Matches(table[i], errno, POSIX_MASK)
  {
    FirstMatchIsFirst(table, errno, POSIX_MASK);
    if ClosestMatch(table, errno).None? {
      FirstMatchIsFirst(table, errno, EXACT_MASK);
    } else {
      ClosestAgreesOnPosixBits(table, errno);
    }
  }

  // ---- Hexadecimal rendering: `%#08x` as ISO C defines it ----

  /** The lower-case hexadecimal digit for `d`. */
  function HexChar(d: nat): char
    requires d < 16
  {
    if d < 10 then ('0' as int + d) as char else ('a' as int + d - 10) as char
  }

  predicate IsHexChar(c: char)
  {
    '0' <= c <= '9' || 'a' <= c <= 'f'
  }

  /** The value of a lower-case hexadecimal digit. */
  function HexCharValue(c: char): (d: nat)
    requires IsHexChar(c)
    ensures d < 16 && HexChar(d) == c
  {
    if c <= '9' then c as int - '0' as int else c as int - 'a' as int + 10
  }

  predicate AllHex(s: string)
  {
    forall k :: 0 <= k < |s| ==> IsHexChar(s[k])
  }

  /** The minimal lower-case hexadecimal digits of `n`. */
  function HexDigits(n: nat): (s: string)
    decreases n
  {
    if n < 16 then [HexChar(n)] else HexDigits(n / 16) + [HexChar(n % 16)]
  }

  /** The value of a string of hexadecimal digits, most significant first. */
  function HexValue(s: string): nat
    requires AllHex(s)
    decreases |s|
  {
    if s == [] then 0 else 16 * HexValue(s[..|s| - 1]) + HexCharValue(s[|s| - 1])
  }

  /** `n` zeros. */
  function Zeros(n: nat): (s: string)
    ensures |s| == n && forall k :: 0 <= k < n ==> s[k] == '0'
  {
    seq(n, _ => '0')
  }

  /** Pad on the left with zeros up to `width` characters. */
  function ZeroPad(s: string, width: nat): string
  {
    if |s| >= width then s else Zeros(width - |s|) + s
  }

  /**
   * `%#08x` as ISO C defines it: zero is "00000000"; any other value is "0x" followed by its
   * digits, zero-padded so that the whole field is at least 8 characters.
   */
  function FormatHex(n: nat): string
  {
    if n == 0 then ZeroPad("0", 8) else "0x" + ZeroPad(HexDigits(n), 6)
  }

  /** Reads back a number written by `FormatHex`. */
  function ParseHex(s: string): Option<nat>
  {
    var digits := if |s| >= 2 && s[..2] == "0x" then s[2..] else s;
    if AllHex(digits) then Some(HexValue(digits)) else None
  }

  function Pow16(k: nat): (p: nat)
    ensures p >= 1
  {
    if k == 0 then 1 else 16 * Pow16(k - 1)
  }

  /** `HexDigits` writes hexadecimal digits, with no leading zero, that read back as `n`. */
  lemma {:induction false} HexDigitsRoundTrip(n: nat)
    ensures AllHex(HexDigits(n))
    ensures HexValue(HexDigits(n)) == n
    ensures n > 0 ==> HexDigits(n)[0] != '0'
    decreases n
  {
    var s := HexDigits(n);
    if n >= 16 {
      HexDigitsRoundTrip(n / 16);
      var front := HexDigits(n / 16);
      assert s == front + [HexChar(n % 16)];
      assert s[..|s| - 1] == front;
      assert s[0] == front[0];
    }
  }

  /** A number below 16^k has at most k hexadecimal digits. */
  lemma {:induction false} HexDigitsLength(n: nat, k: nat)
    requires 0 < k && n < Pow16(k)
    ensures |HexDigits(n)| <= k
    decreases n
  {
    if n >= 16 {
      assert k > 1;
      HexDigitsLength(n / 16, k - 1);
    }
  }

  /** Leading zeros do not change the value of a hexadecimal string. */
  lemma {:induction false} LeadingZeros(z: nat, s: string)
    requires AllHex(s)
    ensures AllHex(Zeros(z) + s)
    ensures HexValue(Zeros(z) + s) == HexValue(s)
    decreases |s|
  {
    var t := Zeros(z) + s;
    if s == [] {
      assert t == Zeros(z);
      AllZerosValue(z);
    } else {
      var front := s[..|s| - 1];
      LeadingZeros(z, front);
      assert t[..|t| - 1] == Zeros(z) + front;
      assert t[|t| - 1] == s[|s| - 1];
    }
  }

  /** A string of zeros is worth zero. */
  lemma {:induction false} AllZerosValue(z: nat)
    ensures AllHex(Zeros(z))
    ensures HexValue(Zeros(z)) == 0
  {
    if z > 0 {
      AllZerosValue(z - 1);
      assert Zeros(z)[..z - 1] == Zeros(z - 1);
    }
  }

  /** Eight hexadecimal digits cover every 32-bit value. */
  lemma Pow16Of8()
    ensures Pow16(8) == 0x1_0000_0000
  {
    assert Pow16(2) == 0x100;
    assert Pow16(4) == 0x1_0000;
    assert Pow16(6) == 0x100_0000;
  }

  /** Zero is rendered as eight zeros. */
  lemma FormatZero()
    ensures FormatHex(0) == "00000000"
    ensures ParseHex(FormatHex(0)) == Some(0)
  {
    var s := FormatHex(0);
    assert s == Zeros(7) + "0";
    LeadingZeros(7, "0");
    assert s[..2] == "00";
  }

  /** A non-zero value is rendered as "0x" and at least six digits that read back as the value. */
  lemma {:induction false} FormatNonZero(n: nat)
    requires 0 < n <= 0xffff_ffff
    ensures 8 <= |FormatHex(n)| <= 10
    ensures FormatHex(n)[..2] == "0x"
    ensures ParseHex(FormatHex(n)) == Some(n)
  {
    HexDigitsRoundTrip(n);
    Pow16Of8();
    HexDigitsLength(n, 8);
    var d := HexDigits(n);
    var z := if |d| >= 6 then 0 else 6 - |d|;
    var padded := Zeros(z) + d;
    assert ZeroPad(d, 6) == padded;
    LeadingZeros(z, d);
    var s := "0x" + padded;
    assert FormatHex(n) == s;
    assert s[..2] == "0x" && s[2..] == padded;
  }

  /**
   * `FormatHex` renders any 32-bit value in 8 to 10 characters that read back
   * as that value, with the "0x" prefix exactly when the value is not zero.
   */
  lemma FormatHexRoundTrip(n: nat)
    requires n <= 0xffff_ffff
    ensures 8 <= |FormatHex(n)| <= 10
    ensures ParseHex(FormatHex(n)) == Some(n)
    ensures (n != 0) == (FormatHex(n)[..2] == "0x")
  {
    if n == 0 {
      FormatZero();
      assert FormatHex(n)[..2] == "00";
    } else {
      FormatNonZero(n);
    }
  }

  // ---- The message ----

  /** `snprintf` into the message buffer keeps at most `ERRBUF_SIZE - 1` characters. */
  function Snprintf(s: string): (r: string)
    ensures |r| == if |s| <= ERRBUF_SIZE - 1 then |s| else ERRBUF_SIZE - 1
    ensures r <= s
    ensures |s| <= ERRBUF_SIZE - 1 ==> r == s
  {
    if |s| <= ERRBUF_SIZE - 1 then s else s[..ERRBUF_SIZE - 1]
  }

  /** `strerror(rc)` is `strerror(errno)`: a negative return code is negated first. */
  function Normalize(errno: Int): (n: Int)
    requires errno != INT_MIN
    ensures n >= 0 && (n == errno || n == -errno)
  {
    if errno < 0 then -errno else errno
  }

  /** The text `strerror` leaves in its buffer, for the table `table`. */
  function Message(table: seq<ErrorTab>, errno: Int): (msg: string)
    requires errno != INT_MIN
    ensures |msg| <= ERRBUF_SIZE - 1
    ensures ClosestMatch(table, Normalize(errno)).Some? ==>
              msg <= table[ClosestMatch(table, Normalize(errno)).value].text + " ("
                     + FormatHex(Normalize(errno)) + ")"
    ensures ClosestMatch(table, Normalize(errno)).None? ==>
              |msg| >= 6 && msg[..6] == "Error "
  {
    var n := Normalize(errno);
    match ClosestMatch(table, n)
    case Some(i) => Snprintf(table[i].text + " (" + FormatHex(n) + ")")
    case None => Snprintf("Error " + FormatHex(n))
  }

  /** `strerror`: normalise, look up the closest description and format the message. */
  method StrError(table: seq<ErrorTab>, errno: Int) returns (msg: string)
    requires errno != INT_MIN
    ensures msg == Message(table, errno)
  {
    var e := errno;
    if e < 0 {
      e := -e;
    }
    var found := FindClosestError(table, e);
    if found.Some? {
      msg := Snprintf(table[found.value].text + " (" + FormatHex(e) + ")");
    } else {
      msg := Snprintf("Error " + FormatHex(e));
    }
  }

  /** A return code and its negation describe the same error with the same number. */
  lemma SignDoesNotMatter(table: seq<ErrorTab>, n: Int)
    requires n != INT_MIN
    ensures -n != INT_MIN && INT_MIN <= -n <= INT_MAX
    ensures Message(table, -n) == Message(table, n)
  {
  }

  /**
   * The message fits the 64-byte buffer.  With a description, it is the
   * description, " (", the number and ")" — in full when the description is
   * at most 50 characters, else cut to 63 characters.  Without one, it is
   * exactly "Error " and the number.  Either way the number reads back from
   * the message.
   */
  lemma MessageShape(table: seq<ErrorTab>, errno: Int)
    requires errno != INT_MIN
    ensures |Message(table, errno)| <= ERRBUF_SIZE - 1
    ensures ClosestMatch(table, Normalize(errno)).Some? ==>
              var text := table[ClosestMatch(table, Normalize(errno)).value].text;
              var full := text + " (" + FormatHex(Normalize(errno)) + ")";
              Message(table, errno) <= full &&
              (|text| <= 50 ==> Message(table, errno) == full)
    ensures ClosestMatch(table, Normalize(errno)).None? ==>
              Message(table, errno) == "Error " + FormatHex(Normalize(errno)) &&
              ParseHex(Message(table, errno)[6..]) == Some(Normalize(errno))
  {
    var n := Normalize(errno);
    FormatHexRoundTrip(n);
    if ClosestMatch(table, n).None? {
      assert ("Error " + FormatHex(n))[6..] == FormatHex(n);
    }
  }

  // ---- The table of common errors ----

  /** The values of the POSIX-style error numbers the common table describes. */
  datatype ErrnoCodes = ErrnoCodes(
    eacces: Int, ecanceled: Int, econnreset: Int, einval: Int, eio: Int,
    enetunreach: Int, enodev: Int, enoent: Int, enoexec: Int, enomem: Int,
    enospc: Int, enotsup: Int, eperm: Int, erange: Int, etimedout: Int)

  /** `common_errors`: the most common errors, "No error" first. */
  function CommonErrors(c: ErrnoCodes): (t: seq<ErrorTab>)
    ensures |t| == 16 && t[0] == ErrorTab(0, "No error")
    ensures forall i :: 0 <= i < |t| ==> 0 < |t[i].text| <= 50
  {
    [ ErrorTab(0, "No error"),
      ErrorTab(c.eacces, "Permission denied"),
      ErrorTab(c.ecanceled, "Operation cancelled"),
      ErrorTab(c.econnreset, "Connection reset"),
      ErrorTab(c.einval, "Invalid argument"),
      ErrorTab(c.eio, "Input/output error"),
      ErrorTab(c.enetunreach, "Network unreachable"),
      ErrorTab(c.enodev, "No such device"),
      ErrorTab(c.enoent, "File not found"),
      ErrorTab(c.enoexec, "Not an executable image"),
      ErrorTab(c.enomem, "Out of memory"),
      ErrorTab(c.enospc, "No space left on device"),
      ErrorTab(c.enotsup, "Not supported"),
      ErrorTab(c.eperm, "Operation not permitted"),
      ErrorTab(c.erange, "Out of range"),
      ErrorTab(c.etimedout, "Connection timed out") ]
  }

  /** With the common table, error number 0 is "No error". */
  lemma ZeroIsNoError(c: ErrnoCodes)
    ensures ClosestMatch(CommonErrors(c), 0) == Some(0)
    ensures Message(CommonErrors(c), 0) == "No error (00000000)"
  {
    assert FormatHex(0) == "00000000";
  }

  /**
   * With the common table every description is short enough that a message
   * naming it is never cut: it is the description, " (", the number and ")".
   */
  lemma CommonMessagesAreComplete(c: ErrnoCodes, errno: Int)
    requires errno != INT_MIN
    ensures ClosestMatch(CommonErrors(c), Normalize(errno)).Some? ==>
              var n := Normalize(errno);
              Message(CommonErrors(c), errno)
                == CommonErrors(c)[ClosestMatch(CommonErrors(c), n).value].text + " (" + FormatHex(n) + ")"
  {
    MessageShape(CommonErrors(c), errno);
  }
}
