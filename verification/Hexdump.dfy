/** `hexdump`: a byte buffer as lower-case hex pairs, written by a loop of size-limited `snprintf` calls. */
module Hexdump {
  import opened MachineTypes

  const DIGITS := "0123456789abcdef"
  const NUL: char := '\0'

  /** "%02x " of one byte. */
  function Pair(b: u8): (s: string)
    ensures |s| == 3 && s[2] == ' '
  {
    [DIGITS[b / 16], DIGITS[b % 16], ' ']
  }

  /** Character i of the dump. */
  function HexChar(buf: seq<u8>, i: int): char
    requires 0 <= i < 3 * |buf|
  {
    Pair(buf[i / 3])[i % 3]
  }

  /** Hex pairs separated by single spaces. */
  function HexString(buf: seq<u8>): (s: string)
    ensures |s| == if buf == [] then 0 else 3 * |buf| - 1
    ensures forall i :: 0 <= i < |s| ==> s[i] == HexChar(buf, i)
  {
    var n := if buf == [] then 0 else 3 * |buf| - 1;
    seq(n, i requires 0 <= i < n => HexChar(buf, i))
  }

  /** The string a C caller reads from a character buffer. */
  ghost predicate Holds(mem: seq<char>, s: string) {
    && |s| < |mem| && mem[..|s|] == s && mem[|s|] == NUL
    && forall i :: 0 <= i < |s| ==> s[i] != NUL
  }

  /** `snprintf(str + off, size, text)`: at most size - 1 characters and a terminator, and nothing else. */
  method Snprintf(str: array<char>, off: nat, size: nat, text: string)
    requires size > 0 && off + (if |text| < size then |text| + 1 else size) <= str.Length
    modifies str
    ensures var n := if |text| < size then |text| else size - 1;
      && (forall k :: off <= k < off + n ==> str[k] == text[k - off])
      && str[off + n] == NUL
      && (forall k :: 0 <= k < str.Length && !(off <= k <= off + n) ==> str[k] == old(str[k]))
  {
    var n := if |text| < size then |text| else size - 1;
    for i := 0 to n
      invariant forall k :: off <= k < off + i ==> str[k] == text[k - off]
      invariant forall k :: 0 <= k < str.Length && !(off <= k < off + i) ==> str[k] == old(str[k])
    {
      str[off + i] := text[i];
    }
    str[off + n] := NUL;
  }

  /** The three characters of byte i. */
  lemma PairAt(buf: seq<u8>, i: nat)
    requires i < |buf|
    ensures forall k :: 3 * i <= k < 3 * i + 3 ==> HexChar(buf, k) == Pair(buf[i])[k - 3 * i]
  {
    forall k | 3 * i <= k < 3 * i + 3 ensures k / 3 == i && k % 3 == k - 3 * i {
    }
  }

  lemma HoldsDump(mem: seq<char>, buf: seq<u8>)
    requires |mem| == 3 * |buf| + 1 && mem[if buf == [] then 0 else 3 * |buf| - 1] == NUL
    requires forall k :: 0 <= k < 3 * |buf| - 1 ==> mem[k] == HexChar(buf, k)
    ensures Holds(mem, HexString(buf))
  {
    assert mem[..|HexString(buf)|] == HexString(buf);
  }

  /** `memory` says whether the allocation of 3 * len + 1 bytes succeeds. */
  method Hexdump(buf: seq<u8>, memory: bool) returns (str: array?<char>)
    ensures !memory ==> str == null
    ensures memory ==> str != null && fresh(str) && str.Length == 3 * |buf| + 1 && Holds(str[..], HexString(buf))
  {
    var len := |buf|;
    var strLen := len * 3 + 1;
    if !memory {
      return null;
    }
    str := new char[strLen];
    var i := 0;
    while i < len
      invariant i <= len && str.Length == strLen && fresh(str)
      invariant forall k :: 0 <= k < 3 * i && k < 3 * len - 1 ==> str[k] == HexChar(buf, k)
      invariant i == len > 0 ==> str[3 * len - 1] == NUL
    {
      Snprintf(str, 3 * i, (len - i) * 3, Pair(buf[i]));
      PairAt(buf, i);
      i := i + 1;
    }
    str[if strLen - 2 > 0 then strLen - 2 else 0] := NUL;
    HoldsDump(str[..], buf);
  }

  function DigitValue(c: char): Option<u8> {
    if '0' <= c <= '9' then Some(c as int - '0' as int)
    else if 'a' <= c <= 'f' then Some(c as int - 'a' as int + 10)
    else None
  }

  /** Reads back hex pairs separated by single spaces. */
  function Decode(s: string): Option<seq<u8>> {
    if s == "" then Some([])
    else if |s| < 2 || DigitValue(s[0]).None? || DigitValue(s[1]).None? then None
    else
      var b: u8 := 16 * DigitValue(s[0]).value + DigitValue(s[1]).value;
      if |s| == 2 then Some([b])
      else if s[2] != ' ' || |s| == 3 then None
      else match Decode(s[3..]) case None => None case Some(rest) => Some([b] + rest)
  }

  lemma DecodePair(b: u8, rest: string)
    ensures Decode(Pair(b)[..2]) == Some([b])
    ensures rest != "" ==> (
      Decode(Pair(b) + rest) == match Decode(rest) { case None => None case Some(bytes) => Some([b] + bytes) })
  {
    DigitsDecode(b);
    assert (Pair(b) + rest)[3..] == rest;
  }

  lemma HexCons(buf: seq<u8>)
    requires |buf| > 1
    ensures HexString(buf) == Pair(buf[0]) + HexString(buf[1..])
  {
    var t := HexString(buf[1..]);
    forall i | 3 <= i < |HexString(buf)| ensures HexString(buf)[i] == t[i - 3] {
      assert i % 3 == (i - 3) % 3 && i / 3 == (i - 3) / 3 + 1;
    }
  }

  /** Decoding the dump gives the buffer back. */
  lemma {:induction false} DumpDecodes(buf: seq<u8>)
    ensures Decode(HexString(buf)) == Some(buf)
  {
    if |buf| == 1 {
      DecodePair(buf[0], "");
      assert HexString(buf) == Pair(buf[0])[..2] && buf == [buf[0]];
    } else if |buf| > 1 {
      DumpDecodes(buf[1..]);
      HexCons(buf);
      DecodePair(buf[0], HexString(buf[1..]));
      assert [buf[0]] + buf[1..] == buf;
    }
  }

  lemma DigitsDecode(b: u8)
    ensures DigitValue(DIGITS[b / 16]) == Some(b / 16) && DigitValue(DIGITS[b % 16]) == Some(b % 16)
    ensures 16 * (b / 16) + b % 16 == b
  {
  }

  /** So two buffers with the same dump are the same buffer. */
  lemma DumpIsInjective(a: seq<u8>, b: seq<u8>)
    requires HexString(a) == HexString(b)
    ensures a == b
  {
    DumpDecodes(a);
    DumpDecodes(b);
  }
}
