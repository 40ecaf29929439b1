/** MAC addresses as text and as numbers (inc/mac.h). */
module Mac {

  import opened Common
  import opened Bytes
  import opened Arithmetic

  const ADDRESS_LENGTH: nat := 6
  const MIN_NUMBER: nat := 0x0215_5d00_0000
  const MAX_NUMBER: nat := 0x0215_5dff_ffff
  const NUMBERS: nat := 0x100_0000

  // ---------- Text ----------

  type Nibble = n: int | 0 <= n < 16

  /** The digit of a nibble: 0 to 9 and A to F. */
  function Digit(n: Nibble): char {
    if n >= 0xA then ('A' as int + n - 0xA) as char else ('0' as int + n) as char
  }

  /** HexNibbleFromChar; lower-case letters are accepted as well. */
  function NibbleOf(c: char): Option<Nibble> {
    if 'A' <= c <= 'F' then Some(c as int - 'A' as int + 0xA)
    else if '0' <= c <= '9' then Some(c as int - '0' as int)
    else if 'a' <= c <= 'f' then Some(c as int - 'a' as int + 0xA)
    else None
  }

  /** bRight | (bLeft << 4) */
  function Join(left: Nibble, right: Nibble): (b: byte)
    ensures b / 16 == left && b % 16 == right
  {
    var n: int := 16 * (left as int) + (right as int);
    DivModUnique(n, 16, left, right);
    n
  }

  function UpperHex(c: char): char {
    if 'a' <= c <= 'f' then (c as int - 'a' as int + 'A' as int) as char else c
  }

  function Upper(s: string): string {
    if s == [] then [] else [UpperHex(s[0])] + Upper(s[1..])
  }

  function Print(bytes: seq<byte>): (s: string)
    ensures |s| == 2 * |bytes|
  {
    if bytes == [] then []
    else
      var last := bytes[|bytes| - 1];
      Print(bytes[..|bytes| - 1]) + [Digit(last / 16), Digit(last % 16)]
  }

  /** The first n pairs of digits; None if one of their characters is no digit. */
  function Parse(s: string, n: nat): (r: Option<seq<byte>>)
    requires 2 * n <= |s|
    ensures r.Some? ==> |r.value| == n
  {
    if n == 0 then Some([])
    else
      match Parse(s, n - 1)
      case None => None
      case Some(front) =>
        var left, right := NibbleOf(s[2 * n - 2]), NibbleOf(s[2 * n - 1]);
        if left.None? || right.None? then None else Some(front + [Join(left.value, right.value)])
  }

  lemma ParseDependsOnPrefix(s: string, t: string, n: nat)
    requires 2 * n <= |s| && s <= t
    ensures Parse(s, n) == Parse(t, n)
  {
  }

  lemma DigitRoundTrip(n: Nibble)
    ensures NibbleOf(Digit(n)) == Some(n)
  {
  }

  const UPPER_DIGITS := "0123456789ABCDEF"
  const LOWER_DIGITS := "0123456789abcdef"

  /** A digit is printed in upper case and read in either. */
  lemma DigitsRead(n: Nibble, c: char)
    ensures Digit(n) == UPPER_DIGITS[n]
    ensures NibbleOf(c) == Some(n) <==> c == UPPER_DIGITS[n] || c == LOWER_DIGITS[n]
  {
  }

  /** Parsing what was printed gives the bytes back, for any number of them. */
  lemma {:induction false} ParseAfterPrint(bytes: seq<byte>)
    ensures Parse(Print(bytes), |bytes|) == Some(bytes)
    decreases |bytes|
  {
    if bytes != [] {
      var n := |bytes| - 1;
      var front, last := bytes[..n], bytes[n];
      ParseAfterPrint(front);
      ParseDependsOnPrefix(Print(front), Print(bytes), n);
      DigitRoundTrip(last / 16);
      DigitRoundTrip(last % 16);
      assert front + [last] == bytes;
    }
  }

  /** Of each byte the higher digit is printed first. */
  lemma {:induction false} PrintedDigits(bytes: seq<byte>, i: nat)
    requires i < |bytes|
    ensures Print(bytes)[2 * i] == UPPER_DIGITS[bytes[i] / 16] && Print(bytes)[2 * i + 1] == UPPER_DIGITS[bytes[i] % 16]
    decreases |bytes|
  {
    if i < |bytes| - 1 {
      PrintedDigits(bytes[..|bytes| - 1], i);
    }
  }

  lemma DigitOfNibble(c: char)
    requires NibbleOf(c).Some?
    ensures Digit(NibbleOf(c).value) == UpperHex(c)
  {
  }

  lemma {:induction false} UpperAppends(s: string, t: string)
    ensures Upper(s + t) == Upper(s) + Upper(t)
    decreases |s|
  {
    hide UpperHex;
    if s == [] {
      assert s + t == t;
    } else {
      UpperAppends(s[1..], t);
      assert (s + t)[1..] == s[1..] + t;
    }
  }

  /** Printing what was parsed is the text in upper case. */
  lemma {:induction false} PrintAfterParse(s: string, n: nat)
    requires |s| == 2 * n && Parse(s, n).Some?
    ensures Print(Parse(s, n).value) == Upper(s)
    decreases n
  {
    if n > 0 {
      var front, l, r := s[..2 * n - 2], s[2 * n - 2], s[2 * n - 1];
      ParseDependsOnPrefix(front, s, n - 1);
      PrintAfterParse(front, n - 1);
      UpperPair(front, l, r);
      assert s == front + [l, r];
      PrintPair(Parse(front, n - 1).value, l, r);
    }
  }

  lemma PrintPair(bytes: seq<byte>, l: char, r: char)
    requires NibbleOf(l).Some? && NibbleOf(r).Some?
    ensures Print(bytes + [Join(NibbleOf(l).value, NibbleOf(r).value)]) == Print(bytes) + [UpperHex(l), UpperHex(r)]
  {
    var all := bytes + [Join(NibbleOf(l).value, NibbleOf(r).value)];
    assert all[..|all| - 1] == bytes;
    DigitOfNibble(l);
    DigitOfNibble(r);
  }

  lemma UpperPair(front: string, l: char, r: char)
    ensures Upper(front + [l, r]) == Upper(front) + [UpperHex(l), UpperHex(r)]
  {
    UpperAppends(front, [l, r]);
    assert [l, r][1..] == [r] && [r][1..] == [];
    assert Upper([r]) == [UpperHex(r)] + Upper([]);
    assert Upper([l, r]) == [UpperHex(l)] + Upper([r]);
  }

  /** BytesToHexString; strLength counts two for each byte. */
  method BytesToHexString(bytes: seq<byte>, strLength: nat, text: array<char>)
    requires strLength % 2 == 0 && strLength == 2 * |bytes| && strLength <= text.Length
    modifies text
    ensures text[..strLength] == Print(bytes)
    ensures text[strLength..] == old(text[strLength..])
  {
    for i := 0 to strLength / 2
      invariant text[..2 * i] == Print(bytes[..i])
      invariant text[2 * i..] == old(text[2 * i..])
    {
      var lowerBits, higherBits := bytes[i] % 16, bytes[i] / 16;
      assert bytes[..i + 1][..i] == bytes[..i];
      text[2 * i] := Digit(higherBits);
      text[2 * i + 1] := Digit(lowerBits);
      assert text[..2 * (i + 1)] == text[..2 * i] + [Digit(higherBits), Digit(lowerBits)];
      assert text[2 * (i + 1)..] == old(text[2 * i..])[2..];
    }
    assert bytes[..|bytes|] == bytes;
  }

  /** The character at a position of a terminated string. */
  function CharAt(text: string, i: nat): char
    requires i <= |text|
  {
    if i < |text| then text[i] else '\0'
  }

  /**
    HexStringToBytes, on terminated text of any length. On a failure the bytes before the bad pair have
    been written.
   */
  method HexStringToBytes(digits: string, bytes: array<byte>, count: nat) returns (status: Status)
    requires count <= bytes.Length
    modifies bytes
    ensures status == (if 2 * count <= |digits| && Parse(digits, count).Some? then Success else BadData)
    ensures status == Success ==> bytes[..count] == Parse(digits, count).value
    ensures bytes[count..] == old(bytes[count..])
  {
    for i := 0 to count
      invariant 2 * i <= |digits| && Parse(digits, i) == Some(bytes[..i])
      invariant bytes[count..] == old(bytes[count..])
    {
      var left := NibbleOf(CharAt(digits, 2 * i));
      if left.None? {
        if 2 * count <= |digits| {
          ParseFailsFurther(digits, i + 1, count);
        }
        return BadData;
      }
      var right := NibbleOf(CharAt(digits, 2 * i + 1));
      if right.None? {
        if 2 * count <= |digits| {
          ParseFailsFurther(digits, i + 1, count);
        }
        return BadData;
      }
      ghost var done := bytes[..i];
      bytes[i] := Join(left.value, right.value);
      assert bytes[..i + 1] == done + [Join(left.value, right.value)];
    }
    return Success;
  }

  lemma {:induction false} ParseFailsFurther(s: string, m: nat, n: nat)
    requires m <= n && 2 * n <= |s| && Parse(s, m).None?
    ensures Parse(s, n).None?
    decreases n
  {
    if m < n {
      ParseFailsFurther(s, m, n - 1);
    }
  }

  // ---------- Numbers ----------

  /** MAC_ADDRESS_TO_NUMBER: the first byte is the highest. */
  function ToNumber(a: seq<byte>): nat {
    if a == [] then 0 else 256 * ToNumber(a[..|a| - 1]) + a[|a| - 1]
  }

  /** NUMBER_TO_MAC_ADDRESS, for any number of bytes. */
  function ToBytes(n: nat, length: nat): (a: seq<byte>)
    ensures |a| == length
  {
    if length == 0 then [] else ToBytes(n / 256, length - 1) + [n % 256]
  }

  lemma {:induction false} NumberOfBytes(n: nat, length: nat)
    ensures ToNumber(ToBytes(n, length)) == n % Pow256(length)
    decreases length
  {
    if length == 0 {
      assert n % 1 == 0;
    } else {
      NumberOfBytes(n / 256, length - 1);
      assert ToBytes(n, length)[..length - 1] == ToBytes(n / 256, length - 1);
      SplitMod(n, 256, Pow256(length - 1));
    }
  }

  lemma {:induction false} BytesOfNumber(a: seq<byte>)
    ensures ToBytes(ToNumber(a), |a|) == a && ToNumber(a) < Pow256(|a|)
    decreases |a|
  {
    if a != [] {
      var front, last := a[..|a| - 1], a[|a| - 1];
      BytesOfNumber(front);
      DivModUnique(ToNumber(a), 256, ToNumber(front), last);
      assert front + [last] == a;
    }
  }

  /** The two conversions are inverse on 48-bit numbers and six-byte addresses. */
  lemma ConversionsAreInverse(n: nat, a: seq<byte>)
    requires n < 0x1_0000_0000_0000 && |a| == ADDRESS_LENGTH
    ensures ToNumber(ToBytes(n, ADDRESS_LENGTH)) == n
    ensures ToBytes(ToNumber(a), ADDRESS_LENGTH) == a
  {
    NumberOfBytes(n, ADDRESS_LENGTH);
    BytesOfNumber(a);
    assert Pow256(3) == 0x100_0000 && Pow256(6) == 0x1_0000_0000_0000;
    DivModUnique(n, Pow256(6), 0, n);
  }

  /** The number of an address is that of its bytes in network order. */
  lemma NumberInNetworkOrder(a: seq<byte>)
    requires |a| == ADDRESS_LENGTH
    ensures ToNumber(a) == 0x100_0000_0000 * (a[0] as int) + 0x1_0000_0000 * (a[1] as int) + 0x100_0000 * (a[2] as int)
                           + 0x1_0000 * (a[3] as int) + 0x100 * (a[4] as int) + a[5] as int
  {
    assert a[..5][..4] == a[..4] && a[..4][..3] == a[..3] && a[..3][..2] == a[..2] && a[..2][..1] == a[..1];
    assert a[..1][..0] == [] && ToNumber([]) == 0;
    assert ToNumber(a[..1]) == a[0];
    assert ToNumber(a[..2]) == 256 * ToNumber(a[..1]) + a[1];
    assert ToNumber(a[..3]) == 256 * ToNumber(a[..2]) + a[2];
    assert ToNumber(a[..4]) == 256 * ToNumber(a[..3]) + a[3];
    assert ToNumber(a[..5]) == 256 * ToNumber(a[..4]) + a[4];
  }

  // ---------- Successor ----------

  function NextNumber(n: nat): nat {
    if n + 1 > MAX_NUMBER then MIN_NUMBER else n + 1
  }

  function Successor(a: seq<byte>): seq<byte> {
    ToBytes(NextNumber(ToNumber(a)), ADDRESS_LENGTH)
  }

  function Successors(a: seq<byte>, k: nat): seq<byte> {
    if k == 0 then a else Successor(Successors(a, k - 1))
  }

  predicate InRange(a: seq<byte>) {
    |a| == ADDRESS_LENGTH && MIN_NUMBER <= ToNumber(a) <= MAX_NUMBER
  }

  /** GetNextMACAddress */
  method GetNextMacAddress(address: array<byte>)
    requires address.Length == ADDRESS_LENGTH
    modifies address
    ensures address[..] == Successor(old(address[..]))
  {
    var number := ToNumber(address[..]);
    number := number + 1;
    if number > MAX_NUMBER {
      number := MIN_NUMBER;
    }
    var bytes := ToBytes(number, ADDRESS_LENGTH);
    forall i | 0 <= i < ADDRESS_LENGTH {
      address[i] := bytes[i];
    }
    assert address[..] == bytes;
  }

  /**
    Among the addresses of the range, k successors are k steps around a circle of 2^24 addresses.
   */
  lemma {:induction false} SuccessorsGoRound(a: seq<byte>, k: nat)
    requires InRange(a)
    ensures InRange(Successors(a, k))
    ensures ToNumber(Successors(a, k)) == MIN_NUMBER + (ToNumber(a) - MIN_NUMBER + k) % NUMBERS
    decreases k
  {
    hide ToNumber;
    hide ToBytes;
    var start := ToNumber(a) - MIN_NUMBER;
    if k == 0 {
      DivModUnique(start, NUMBERS, 0, start);
    } else {
      SuccessorsGoRound(a, k - 1);
      var before := Successors(a, k - 1);
      ConversionsAreInverse(NextNumber(ToNumber(before)), before);
      ModNext(start + k - 1, NUMBERS);
    }
  }

  /** Past the end of the range the first address follows, everywhere else the next number, also below the range. */
  lemma SuccessorIs(a: seq<byte>)
    requires |a| == ADDRESS_LENGTH
    ensures ToNumber(Successor(a)) == if ToNumber(a) >= 0x0215_5DFF_FFFF then 0x0215_5D00_0000 else ToNumber(a) + 1
  {
    hide ToNumber;
    hide ToBytes;
    ConversionsAreInverse(NextNumber(ToNumber(a)), a);
  }

  /** The last address of the range, 02-15-5D-FF-FF-FF, is followed by the first one, 02-15-5D-00-00-00. */
  lemma SuccessorAtTheEnd()
    ensures Successor([0x02, 0x15, 0x5D, 0xFF, 0xFF, 0xFF]) == [0x02, 0x15, 0x5D, 0, 0, 0]
    ensures InRange([0x02, 0x15, 0x5D, 0, 0, 0])
  {
    var last, first := [0x02, 0x15, 0x5D, 0xFF, 0xFF, 0xFF], [0x02, 0x15, 0x5D, 0, 0, 0];
    NumberInNetworkOrder(last);
    NumberInNetworkOrder(first);
    ConversionsAreInverse(0, first);
  }

  /** The adapter's address differs from the one the device reports, whatever that is. */
  lemma SuccessorDiffers(a: seq<byte>)
    requires |a| == ADDRESS_LENGTH
    ensures Successor(a) != a
  {
    var n := ToNumber(a);
    ConversionsAreInverse(NextNumber(n), a);
    assert NextNumber(n) != n;
  }
}
