/** Hexadecimal public keys as the codec uses them: lower-casing, encoding, decoding and byte order. */
module Hex {
  import opened Wrappers

  type byte = x: nat | x < 256

  // strings.ToLower on ASCII. No other character lower-cases to a hexadecimal digit.
  function LowerChar(c: char): char {
    if 'A' <= c <= 'Z' then c - 'A' + 'a' else c
  }

  function ToLower(s: string): (r: string)
    ensures |r| == |s| && forall i :: 0 <= i < |s| ==> r[i] == LowerChar(s[i])
  {
    seq(|s|, i requires 0 <= i < |s| => LowerChar(s[i]))
  }

  function DigitValue(c: char): Option<nat> {
    if '0' <= c <= '9' then Some((c - '0') as nat)
    else if 'a' <= c <= 'f' then Some((c - 'a') as nat + 10)
    else if 'A' <= c <= 'F' then Some((c - 'A') as nat + 10)
    else None
  }

  function Digit(n: nat): char
    requires n < 16
  {
    if n < 10 then '0' + n as char else 'a' + (n - 10) as char
  }

  // hex.EncodeToString
  function Encode(b: seq<byte>): string {
    if b == [] then "" else [Digit(b[0] / 16), Digit(b[0] % 16)] + Encode(b[1..])
  }

  // hex.DecodeString
  function Decode(s: string): Option<seq<byte>> {
    if s == "" then Some([])
    else if |s| == 1 then None
    else match (DigitValue(s[0]), DigitValue(s[1]), Decode(s[2..]))
      case (Some(hi), Some(lo), Some(rest)) => if hi < 16 && lo < 16 then Some([hi * 16 + lo] + rest) else None
      case _ => None
  }

  lemma DigitInverse(n: nat)
    requires n < 16
    ensures DigitValue(Digit(n)) == Some(n) && LowerChar(Digit(n)) == Digit(n)
  {
  }

  lemma LowerDigitInverse(c: char)
    requires DigitValue(c).Some?
    ensures DigitValue(c).value < 16 && Digit(DigitValue(c).value) == LowerChar(c)
  {
  }

  lemma {:induction false} DecodeEncode(b: seq<byte>)
    ensures Decode(Encode(b)) == Some(b)
    decreases |b|
  {
    hide DigitValue, Digit;
    if b != [] {
      DigitInverse(b[0] / 16);
      DigitInverse(b[0] % 16);
      DecodeEncode(b[1..]);
      var e := Encode(b);
      assert e[2..] == Encode(b[1..]);
      assert [b[0]] + b[1..] == b;
    }
  }

  // The digits are those of base 16, in lower case when written and in either case when read.
  lemma DigitTable(n: nat)
    requires n < 16
    ensures Digit(n) == "0123456789abcdef"[n]
    ensures DigitValue("0123456789abcdef"[n]) == DigitValue("0123456789ABCDEF"[n]) == Some(n)
    ensures LowerChar("0123456789ABCDEF"[n]) == "0123456789abcdef"[n]
  {
  }

  // A byte is written with its high digit first.
  lemma EncodeByte(b: byte)
    ensures Encode([b]) == [Digit(b / 16), Digit(b % 16)]
  {
    assert [b][1..] == [];
  }

  // No other character is a digit.
  lemma NoOtherDigit(c: char)
    requires DigitValue(c).Some?
    ensures c in "0123456789abcdefABCDEF"
  {
    var digits := "0123456789abcdefABCDEF";
    var n := DigitValue(c).value;
    assert digits[n] == c || digits[n + 6] == c;
  }

  predicate IsLower(s: string) {
    forall i :: 0 <= i < |s| ==> LowerChar(s[i]) == s[i]
  }

  lemma LowerIsLower(s: string)
    ensures IsLower(ToLower(s))
    ensures IsLower(s) ==> ToLower(s) == s
  {
  }

  lemma EncodeCons(x: byte, rest: seq<byte>)
    ensures Encode([x] + rest) == [Digit(x / 16), Digit(x % 16)] + Encode(rest)
  {
    assert ([x] + rest)[1..] == rest;
  }

  // Encoding what a string decodes to gives the string in lower case.
  lemma {:induction false} EncodeDecode(s: string)
    requires Decode(s).Some?
    ensures Encode(Decode(s).value) == ToLower(s)
    ensures IsLower(s) ==> Encode(Decode(s).value) == s
    decreases |s|
  {
    hide Decode, Encode, DigitValue, Digit, LowerChar, ToLower, IsLower;
    LowerIsLower(s);
    if s != "" {
      DecodeCons(s);
      var rest := s[2..];
      EncodeDecode(rest);
      var hi, lo := DigitValue(s[0]).value, DigitValue(s[1]).value;
      LowerDigitInverse(s[0]);
      LowerDigitInverse(s[1]);
      JoinDigits(hi, lo);
      EncodeCons(hi * 16 + lo, Decode(rest).value);
      LowerCons(s[0], s[1], rest);
      assert s == [s[0], s[1]] + rest;
    } else {
      EncodeNothing();
    }
  }

  lemma EncodeNothing()
    ensures Decode("") == Some([]) && Encode([]) == "" == ToLower("")
  {
  }

  lemma DecodeCons(s: string)
    requires s != "" && Decode(s).Some?
    ensures |s| >= 2 && DigitValue(s[0]).Some? && DigitValue(s[1]).Some? && Decode(s[2..]).Some?
    ensures var x := DigitValue(s[0]).value * 16 + DigitValue(s[1]).value;
      x < 256 && Decode(s).value == [x] + Decode(s[2..]).value
  {
  }

  lemma JoinDigits(hi: nat, lo: nat)
    requires hi < 16 && lo < 16
    ensures (hi * 16 + lo) / 16 == hi && (hi * 16 + lo) % 16 == lo && hi * 16 + lo < 256
  {
  }

  lemma LowerCons(c: char, d: char, rest: string)
    ensures ToLower([c, d] + rest) == [LowerChar(c), LowerChar(d)] + ToLower(rest)
  {
  }

  lemma EncodeInjective(a: seq<byte>, b: seq<byte>)
    requires Encode(a) == Encode(b)
    ensures a == b
  {
    DecodeEncode(a);
    DecodeEncode(b);
  }

  // bytes.Compare(a, b) < 0
  predicate Less(a: seq<byte>, b: seq<byte>) {
    if b == [] then false
    else if a == [] then true
    else a[0] < b[0] || (a[0] == b[0] && Less(a[1..], b[1..]))
  }

  // The first position where two keys differ, where the first key has the smaller byte.
  ghost predicate SmallerAt(a: seq<byte>, b: seq<byte>, k: nat) {
    k < |a| && k < |b| && a[k] < b[k] && forall j :: 0 <= j < k ==> a[j] == b[j]
  }

  ghost predicate ProperPrefix(a: seq<byte>, b: seq<byte>) {
    |a| < |b| && forall j :: 0 <= j < |a| ==> a[j] == b[j]
  }

  // The order is lexicographic.
  lemma {:induction false} LessIsLexicographic(a: seq<byte>, b: seq<byte>)
    ensures Less(a, b) <==> ProperPrefix(a, b) || exists k :: SmallerAt(a, b, k)
    decreases |a|
  {
    if a != [] && b != [] && a[0] == b[0] {
      LessIsLexicographic(a[1..], b[1..]);
      PrefixTail(a, b);
      if k: nat :| SmallerAt(a[1..], b[1..], k) {
        SmallerTail(a, b, k);
      }
      if k: nat :| SmallerAt(a, b, k) {
        SmallerTail(a, b, k - 1);
      }
    } else if a != [] && b != [] {
      assert a[0] < b[0] ==> SmallerAt(a, b, 0);
    }
  }

  lemma SmallerTail(a: seq<byte>, b: seq<byte>, k: nat)
    requires a != [] && b != [] && a[0] == b[0]
    ensures SmallerAt(a, b, k + 1) <==> SmallerAt(a[1..], b[1..], k)
  {
    if SmallerAt(a, b, k + 1) {
      assert forall j :: 0 <= j < k ==> a[1..][j] == a[j + 1] && b[1..][j] == b[j + 1];
    }
    if SmallerAt(a[1..], b[1..], k) {
      assert forall j :: 0 < j < k + 1 ==> a[j] == a[1..][j - 1] && b[j] == b[1..][j - 1];
    }
  }

  lemma PrefixTail(a: seq<byte>, b: seq<byte>)
    requires a != [] && b != [] && a[0] == b[0]
    ensures ProperPrefix(a, b) <==> ProperPrefix(a[1..], b[1..])
  {
    if ProperPrefix(a, b) {
      assert forall j :: 0 <= j < |a| - 1 ==> a[1..][j] == a[j + 1] && b[1..][j] == b[j + 1];
    }
    if ProperPrefix(a[1..], b[1..]) {
      assert forall j :: 0 < j < |a| ==> a[j] == a[1..][j - 1] && b[j] == b[1..][j - 1];
    }
  }

  lemma {:induction false} LessTrans(a: seq<byte>, b: seq<byte>, c: seq<byte>)
    requires Less(a, b) && Less(b, c)
    ensures Less(a, c)
    decreases |a|
  {
    if a != [] && a[0] == b[0] && b[0] == c[0] {
      LessTrans(a[1..], b[1..], c[1..]);
    }
  }

  lemma {:induction false} LessTotal(a: seq<byte>, b: seq<byte>)
    ensures Less(a, b) || a == b || Less(b, a)
    ensures !(Less(a, b) && Less(b, a)) && (a == b ==> !Less(a, b))
    decreases |a|
  {
    if a != [] && b != [] {
      LessTotal(a[1..], b[1..]);
      assert a == [a[0]] + a[1..] && b == [b[0]] + b[1..];
    }
  }
}
