/** The textual form of an account: a prefix and 60 base-32 digits that hold the key and a checksum. */
module AccountCodec {
  import opened Options

  const TWO_40: nat := 0x100_00000000
  const TWO_256: nat := 0x1_00000000_00000000_00000000_00000000_00000000_00000000_00000000_00000000
  const TWO_512: nat := 0x1_00000000_00000000_00000000_00000000_00000000_00000000_00000000_00000000_00000000_00000000_00000000_00000000_00000000_00000000_00000000_00000000

  type Account = a: nat | a < TWO_256 witness 0

  /** A five-byte checksum, read as a little-endian number. Any function will do. */
  type Checksum = c: nat | c < TWO_40 witness 0

  // ----- Digit tables -----

  /** The table of digits. */
  function AccountLookup(d: nat): char
    requires d < 32
  {
    match d
    case 0 => '1' case 1 => '3' case 2 => '4' case 3 => '5' case 4 => '6' case 5 => '7' case 6 => '8' case 7 => '9'
    case 8 => 'a' case 9 => 'b' case 10 => 'c' case 11 => 'd' case 12 => 'e' case 13 => 'f' case 14 => 'g' case 15 => 'h'
    case 16 => 'i' case 17 => 'j' case 18 => 'k' case 19 => 'm' case 20 => 'n' case 21 => 'o' case 22 => 'p' case 23 => 'q'
    case 24 => 'r' case 25 => 's' case 26 => 't' case 27 => 'u' case 28 => 'w' case 29 => 'x' case 30 => 'y' case 31 => 'z'
  }

  /** The reverse table, indexed from the character 0x30. Entries are shifted by 0x30; a tilde marks a character that is no digit. */
  function AccountReverse(i: nat): char
    requires i < 80
  {
    match i
    case 1 => '0' case 3 => '1' case 4 => '2' case 5 => '3' case 6 => '4' case 7 => '5' case 8 => '6' case 9 => '7'
    case 49 => '8' case 50 => '9' case 51 => ':' case 52 => ';' case 53 => '<' case 54 => '=' case 55 => '>' case 56 => '?'
    case 57 => '@' case 58 => 'A' case 59 => 'B' case 61 => 'C' case 62 => 'D' case 63 => 'E' case 64 => 'F' case 65 => 'G'
    case 66 => 'H' case 67 => 'I' case 68 => 'J' case 69 => 'K' case 71 => 'L' case 72 => 'M' case 73 => 'N' case 74 => 'O'
    case _ => '~'
  }

  function DecodeChar(c: char): (d: Option<nat>)
    ensures d.Some? ==> d.value < 32
  {
    if 0x30 <= c as int < 0x80 then
      var r := AccountReverse(c as int - 0x30);
      if r == '~' then None else Some(r as int - 0x30)
    else None
  }

  lemma DecodeEncodedDigit(d: nat)
    requires d < 32
    ensures DecodeChar(AccountLookup(d)) == Some(d)
  {
  }

  lemma EncodeDecodedChar(c: char)
    requires DecodeChar(c).Some?
    ensures AccountLookup(DecodeChar(c).value) == c
  {
  }

  /** The digits are the decimal digits and the small letters without 0, 2, l and v, in the order of their codes. */
  lemma DigitsInOrder(c: char)
    ensures DecodeChar(c).Some? <==> ('0' <= c <= '9' || 'a' <= c <= 'z') && c != '0' && c != '2' && c != 'l' && c != 'v'
    ensures forall d, e :: 0 <= d < e < 32 ==> AccountLookup(d) < AccountLookup(e)
  {
  }

  // ----- Base-32 numbers -----

  predicate AreDigits(ds: seq<nat>) {
    forall i :: 0 <= i < |ds| ==> ds[i] < 32
  }

  /** The last `k` base-32 digits of a number, most significant first. */
  function Digits(n: nat, k: nat): (ds: seq<nat>)
    ensures |ds| == k && AreDigits(ds)
  {
    if k == 0 then [] else Digits(n / 32, k - 1) + [n % 32]
  }

  function Value(ds: seq<nat>): nat {
    if ds == [] then 0 else Value(ds[..|ds| - 1]) * 32 + ds[|ds| - 1]
  }

  function Pow32(k: nat): nat {
    if k == 0 then 1 else 32 * Pow32(k - 1)
  }

  lemma {:induction false} ValueOfDigits(n: nat, k: nat)
    requires n < Pow32(k)
    ensures Value(Digits(n, k)) == n
    decreases k
  {
    if k > 0 {
      ValueOfDigits(n / 32, k - 1);
      assert Digits(n, k)[..k - 1] == Digits(n / 32, k - 1);
    }
  }

  lemma {:induction false} DigitsOfValue(ds: seq<nat>)
    requires AreDigits(ds)
    ensures Digits(Value(ds), |ds|) == ds
    ensures Value(ds) < Pow32(|ds|)
  {
    if ds != [] {
      var rest, last := ds[..|ds| - 1], ds[|ds| - 1];
      DigitsOfValue(rest);
      LastDigit(Value(rest), last);
      assert ds == rest + [last];
    }
  }

  lemma LastDigit(n: nat, d: nat)
    requires d < 32
    ensures (n * 32 + d) / 32 == n && (n * 32 + d) % 32 == d
  {
  }

  /** A leading digit below 2 keeps 60 digits below 2^296. */
  lemma {:induction false} SmallLeadingDigit(ds: seq<nat>)
    requires AreDigits(ds) && ds != [] && ds[0] <= 1
    ensures Value(ds) < 2 * Pow32(|ds| - 1)
  {
    if |ds| == 1 {
      assert ds[..0] == [];
    } else {
      var rest := ds[..|ds| - 1];
      SmallLeadingDigit(rest);
    }
  }

  lemma {:induction false} Pow32Adds(a: nat, b: nat)
    ensures Pow32(a + b) == Pow32(a) * Pow32(b)
  {
    if a > 0 {
      Pow32Adds(a - 1, b);
      assert Pow32(a) * Pow32(b) == 32 * (Pow32(a - 1) * Pow32(b));
    }
  }

  lemma Pow32Of20()
    ensures Pow32(20) == 0x10_0000_0000_0000_0000_0000_0000
    ensures Pow32(5) == 0x200_0000 && Pow32(4) == 0x10_0000
  {
    assert Pow32(3) == 0x8000;
    assert Pow32(5) == 32 * Pow32(4) == 32 * 32 * Pow32(3);
    Pow32Adds(5, 5);
    Pow32Adds(10, 10);
  }

  lemma Pow32Values()
    ensures 2 * Pow32(59) == TWO_256 * TWO_40
    ensures Pow32(60) == 32 * Pow32(59)
  {
    Pow32Of20();
    Pow32Adds(20, 20);
    Pow32Adds(5, 5);
    Pow32Adds(40, 10);
    Pow32Adds(50, 5);
    Pow32Adds(55, 4);
  }

  // ----- The textual form -----

  function Chars(ds: seq<nat>): (s: string)
    requires AreDigits(ds)
  {
    seq(|ds|, i requires 0 <= i < |ds| => AccountLookup(ds[i]))
  }

  /** Key and checksum as one number. */
  function Number(a: Account, check: Account -> Checksum): (n: nat)
    ensures n < TWO_256 * TWO_40
    ensures n / TWO_40 == a && n % TWO_40 == check(a)
  {
    a * TWO_40 + check(a)
  }

  /** The 60 characters after the prefix. */
  function Body(a: Account, check: Account -> Checksum): (s: string)
    ensures |s| == 60
  {
    Chars(Digits(Number(a, check), 60))
  }

  function Reversed(s: string): string {
    seq(|s|, i requires 0 <= i < |s| => s[|s| - 1 - i])
  }

  /** A number after `i` shifts by one digit. */
  function Shifted(n: nat, i: nat): nat {
    if i == 0 then n else Shifted(n, i - 1) / 32
  }

  lemma {:induction false} ShiftInside(n: nat, i: nat)
    ensures Shifted(n / 32, i) == Shifted(n, i + 1)
  {
    if i > 0 {
      ShiftInside(n, i - 1);
    }
  }

  lemma {:induction false} DigitAt(n: nat, k: nat, j: nat)
    requires j < k
    ensures Digits(n, k)[k - 1 - j] == Shifted(n, j) % 32
    decreases k
  {
    if j > 0 {
      DigitAt(n / 32, k - 1, j - 1);
      ShiftInside(n, j - 1);
    }
  }

  /** Emits the digits from the least significant one and reverses the text at the end. */
  method EncodeAccount(a: Account, check: Account -> Checksum) returns (text: string)
    ensures text == "nano_" + Body(a, check)
  {
    ghost var all := Number(a, check);
    var number := a * TWO_40 + check(a);
    var result := "";
    for i := 0 to 60
      invariant number == Shifted(all, i) && |result| == i
      invariant forall j :: 0 <= j < i ==> result[j] == AccountLookup(Digits(all, 60)[59 - j])
    {
      DigitAt(all, 60, i);
      result := result + [AccountLookup(number % 32)];
      number := number / 32;
    }
    assert Reversed(result) == Body(a, check);
    assert Reversed(result + "_onan") == "nano_" + Reversed(result);
    text := Reversed(result + "_onan");
  }

  // ----- Parsing -----

  predicate StartsWith(s: string, prefix: string) {
    |prefix| <= |s| && s[..|prefix|] == prefix
  }

  predicate HasXrbPrefix(s: string) {
    StartsWith(s, "xrb_") || StartsWith(s, "xrb-")
  }

  predicate HasNanoPrefix(s: string) {
    StartsWith(s, "nano_") || StartsWith(s, "nano-")
  }

  predicate HasNodeIdPrefix(s: string) {
    StartsWith(s, "node_")
  }

  function PrefixLen(s: string): nat {
    if HasXrbPrefix(s) then 4 else 5
  }

  predicate IsLengthValid(s: string) {
    (HasXrbPrefix(s) ==> |s| == 64) && (HasNanoPrefix(s) ==> |s| == 65)
  }

  predicate IsFirstDigitValid(s: string) {
    PrefixLen(s) < |s| && (s[PrefixLen(s)] == '1' || s[PrefixLen(s)] == '3')
  }

  predicate IsValid(s: string) {
    |s| > 4 && (HasXrbPrefix(s) || HasNanoPrefix(s) || HasNodeIdPrefix(s)) && IsLengthValid(s) && IsFirstDigitValid(s)
  }

  /** The digits of a text, if every character is one. */
  function DecodeAll(cs: string): (ds: Option<seq<nat>>)
    ensures ds.Some? ==> |ds.value| == |cs| && AreDigits(ds.value)
  {
    if cs == "" then Some([]) else
      var rest := DecodeAll(cs[..|cs| - 1]);
      var d := DecodeChar(cs[|cs| - 1]);
      if rest.Some? && d.Some? then Some(rest.value + [d.value]) else None
  }

  /** The value of the digits in 512-bit arithmetic, where shifting drops the high bits. */
  function Accumulated(ds: seq<nat>): nat {
    if ds == [] then 0 else Accumulated(ds[..|ds| - 1]) * 32 % TWO_512 + ds[|ds| - 1]
  }

  function ToAccount(n: nat, check: Account -> Checksum): Option<Account> {
    var a := n / TWO_40 % TWO_256;
    if check(a) == n % TWO_40 then Some(a) else None
  }

  function Parse(s: string, check: Account -> Checksum): Option<Account> {
    if !IsValid(s) then None else
      match DecodeAll(s[PrefixLen(s)..])
      case None => None
      case Some(ds) => ToAccount(Accumulated(ds), check)
  }

  lemma DecodeNext(body: string, i: nat)
    requires i < |body|
    ensures
      var before, d := DecodeAll(body[..i]), DecodeChar(body[i]);
      DecodeAll(body[..i + 1]) == if before.Some? && d.Some? then Some(before.value + [d.value]) else None
  {
    hide DecodeChar;
    assert body[..i + 1][..i] == body[..i];
  }

  lemma AccumulateNext(ds: seq<nat>, d: nat)
    ensures Accumulated(ds + [d]) == Accumulated(ds) * 32 % TWO_512 + d
  {
    assert (ds + [d])[..|ds|] == ds;
  }

  /** Shifts and adds digit by digit, until a character that is no digit. */
  method Accumulate(body: string) returns (number: Option<nat>)
    ensures number == if DecodeAll(body).None? then None else Some(Accumulated(DecodeAll(body).value))
  {
    hide DecodeChar, DecodeAll, Accumulated;
    var n := 0;
    ghost var ds: seq<nat> := [];
    assert body[..0] == "";
    NothingDecoded();
    for i := 0 to |body|
      invariant DecodeAll(body[..i]) == Some(ds) && n == Accumulated(ds)
    {
      DecodeNext(body, i);
      var d := DecodeChar(body[i]);
      if d.None? {
        InvalidPrefix(body, i + 1);
        return None;
      }
      AccumulateNext(ds, d.value);
      n, ds := n * 32 % TWO_512 + d.value, ds + [d.value];
    }
    assert body[..|body|] == body;
    number := Some(n);
  }

  lemma NothingDecoded()
    ensures DecodeAll("") == Some([]) && Accumulated([]) == 0
  {
  }

  method ParseAccount(s: string, check: Account -> Checksum) returns (a: Option<Account>)
    ensures a == Parse(s, check)
  {
    hide DecodeChar, DecodeAll, Accumulated, ToAccount;
    if !IsValid(s) {
      return None;
    }
    var number := Accumulate(s[PrefixLen(s)..]);
    a := if number.None? then None else ToAccount(number.value, check);
  }

  lemma {:induction false} InvalidPrefix(cs: string, i: nat)
    requires i <= |cs| && DecodeAll(cs[..i]).None?
    ensures DecodeAll(cs).None?
    decreases |cs|
  {
    if i == |cs| {
      assert cs[..i] == cs;
    } else {
      assert cs[..|cs| - 1][..i] == cs[..i];
      InvalidPrefix(cs[..|cs| - 1], i);
    }
  }

  // ----- Printing and parsing are inverse -----

  lemma {:induction false} DecodeChars(ds: seq<nat>)
    requires AreDigits(ds)
    ensures DecodeAll(Chars(ds)) == Some(ds)
  {
    if ds != [] {
      var rest := ds[..|ds| - 1];
      DecodeChars(rest);
      assert Chars(ds)[..|ds| - 1] == Chars(rest);
      DecodeEncodedDigit(ds[|ds| - 1]);
      assert ds == rest + [ds[|ds| - 1]];
    }
  }

  lemma {:induction false} CharsOfDecoded(cs: string)
    requires DecodeAll(cs).Some?
    ensures Chars(DecodeAll(cs).value) == cs
  {
    if cs != "" {
      var rest := cs[..|cs| - 1];
      CharsOfDecoded(rest);
      EncodeDecodedChar(cs[|cs| - 1]);
      assert cs == rest + [cs[|cs| - 1]];
    }
  }

  /** No bits are lost as long as the value fits. */
  lemma {:induction false} AccumulatedIsValue(ds: seq<nat>)
    requires Value(ds) < TWO_512
    ensures Accumulated(ds) == Value(ds)
  {
    if ds != [] {
      AccumulatedIsValue(ds[..|ds| - 1]);
    }
  }

  /** In general only the last 512 bits of the value are kept. */
  lemma {:induction false} AccumulatedIsModular(ds: seq<nat>)
    requires AreDigits(ds)
    ensures Accumulated(ds) == Value(ds) % TWO_512
  {
    if ds != [] {
      var rest, last := ds[..|ds| - 1], ds[|ds| - 1];
      AccumulatedIsModular(rest);
      KeepsLowBits(Value(rest), last);
    }
  }

  lemma KeepsLowBits(n: nat, d: nat)
    requires d < 32
    ensures n % TWO_512 * 32 % TWO_512 + d == (n * 32 + d) % TWO_512
  {
    var q, r := n / TWO_512, n % TWO_512;
    var k, low := r * 32 / TWO_512, r * 32 % TWO_512;
    assert n * 32 + d == (q * 32 + k) * TWO_512 + (low + d);
    assert low % 32 == 0 && low <= TWO_512 - 32;
    Remainder(n * 32 + d, q * 32 + k, low + d);
  }

  lemma Remainder(n: nat, q: nat, r: nat)
    requires n == q * TWO_512 + r && r < TWO_512
    ensures n % TWO_512 == r
  {
  }

  lemma {:induction false} LeadingDigitWeighs(ds: seq<nat>)
    requires ds != []
    ensures Value(ds) >= ds[0] * Pow32(|ds| - 1)
  {
    if |ds| == 1 {
      assert ds[..0] == [];
    } else {
      LeadingDigitWeighs(ds[..|ds| - 1]);
      assert 32 * (ds[0] * Pow32(|ds| - 2)) == ds[0] * Pow32(|ds| - 1);
    }
  }

  lemma LeadingDigitIsSmall(ds: seq<nat>)
    requires ds != [] && Value(ds) < 2 * Pow32(|ds| - 1)
    ensures ds[0] <= 1
  {
    hide Value, Pow32;
    LeadingDigitWeighs(ds);
    TwiceAtMost(ds[0], Pow32(|ds| - 1));
  }

  lemma TwiceAtMost(d: nat, p: nat)
    ensures d >= 2 ==> d * p >= 2 * p
  {
  }

  /** The printed form starts with one of the two digits the parser insists on. */
  lemma BodyOfAccount(a: Account, check: Account -> Checksum)
    ensures DecodeAll(Body(a, check)).Some?
    ensures Value(DecodeAll(Body(a, check)).value) == Number(a, check)
    ensures Body(a, check)[0] == '1' || Body(a, check)[0] == '3'
  {
    hide Value, Pow32, DecodeAll, Digits, Number;
    var n := Number(a, check);
    var ds := Digits(n, 60);
    Pow32Values();
    ValueOfDigits(n, 60);
    DecodeChars(ds);
    LeadingDigitIsSmall(ds);
  }

  predicate IsPrefix(p: string) {
    p == "nano_" || p == "nano-" || p == "xrb_" || p == "xrb-" || p == "node_"
  }

  lemma ToAccountOfNumber(a: Account, check: Account -> Checksum)
    ensures ToAccount(Number(a, check), check) == Some(a)
    ensures Number(a, check) < TWO_512
  {
  }

  lemma NumberOfAccount(n: nat, check: Account -> Checksum)
    requires n < TWO_256 * TWO_40 && ToAccount(n, check).Some?
    ensures Number(ToAccount(n, check).value, check) == n
  {
  }

  /** Every account is parsed back from its printed form, under every accepted prefix and for every checksum function. */
  lemma ParsePrinted(p: string, a: Account, check: Account -> Checksum)
    requires IsPrefix(p)
    ensures Parse(p + Body(a, check), check) == Some(a)
  {
    hide Number, Body, ToAccount, Accumulated, Value, DecodeAll, HasXrbPrefix, HasNanoPrefix, HasNodeIdPrefix;
    BodyOfAccount(a, check);
    PrefixOf(p, Body(a, check));
    ToAccountOfNumber(a, check);
    AccumulatedIsValue(DecodeAll(Body(a, check)).value);
  }

  lemma PrefixOf(p: string, body: string)
    requires IsPrefix(p)
    ensures PrefixLen(p + body) == |p| && (p + body)[|p|..] == body
    ensures HasXrbPrefix(p + body) <==> |p| == 4
    ensures HasNanoPrefix(p + body) ==> |p| == 5
    ensures HasXrbPrefix(p + body) || HasNanoPrefix(p + body) || HasNodeIdPrefix(p + body)
  {
    var s := p + body;
    assert s[..|p|] == p;
    assert s[0] == p[0];
    assert HasXrbPrefix(s) ==> s[..4][0] == 'x';
    assert HasNanoPrefix(s) ==> s[..5][0] == 'n';
  }

  /** Nothing is accepted without one of the five prefixes. */
  lemma AcceptedHasPrefix(s: string, check: Account -> Checksum)
    requires Parse(s, check).Some?
    ensures PrefixLen(s) <= |s| && IsPrefix(s[..PrefixLen(s)])
  {
    hide DecodeAll, ToAccount, Accumulated;
  }

  /** An accepted text with 60 digits is, after its prefix, the printed form of its account. */
  lemma AcceptedIsPrinted(s: string, check: Account -> Checksum)
    requires Parse(s, check).Some? && |s| == PrefixLen(s) + 60
    ensures s[PrefixLen(s)..] == Body(Parse(s, check).value, check)
  {
    hide Number, ToAccount, Accumulated, Value, DecodeAll, HasXrbPrefix, HasNanoPrefix, HasNodeIdPrefix, Chars, Digits, Pow32;
    var body := s[PrefixLen(s)..];
    var ds := DecodeAll(body).value;
    CharsOfDecoded(body);
    FirstDigitIsSmall(body);
    SmallLeadingDigit(ds);
    Pow32Values();
    AccumulatedIsValue(ds);
    DigitsOfValue(ds);
    NumberOfAccount(Value(ds), check);
  }

  lemma FirstDigitIsSmall(body: string)
    requires DecodeAll(body).Some? && body != "" && (body[0] == '1' || body[0] == '3')
    ensures DecodeAll(body).value[0] <= 1
  {
    CharsOfDecoded(body);
    var d := DecodeAll(body).value[0];
    DecodeEncodedDigit(d);
  }

  /** An accepted text is the printed form of its account exactly when 60 characters follow the prefix. */
  lemma PrintedExactlyWhenSixty(s: string, check: Account -> Checksum)
    requires Parse(s, check).Some?
    ensures s[PrefixLen(s)..] == Body(Parse(s, check).value, check) <==> |s| == PrefixLen(s) + 60
  {
    if |s| == PrefixLen(s) + 60 {
      AcceptedIsPrinted(s, check);
    }
  }

  /** Under the nano and xrb prefixes a text is accepted as an account exactly when it is that account's printed form. */
  lemma AcceptedExactlyWhenPrinted(s: string, a: Account, check: Account -> Checksum)
    requires HasNanoPrefix(s) || HasXrbPrefix(s)
    ensures Parse(s, check) == Some(a) <==> s[PrefixLen(s)..] == Body(a, check)
  {
    hide Body, ToAccount, DecodeAll, Accumulated;
    if Parse(s, check) == Some(a) {
      assert |s| == PrefixLen(s) + 60;
      AcceptedIsPrinted(s, check);
    } else if s[PrefixLen(s)..] == Body(a, check) {
      var p := s[..PrefixLen(s)];
      assert s == p + s[PrefixLen(s)..];
      ParsePrinted(p, a, check);
    }
  }

  /** The node prefix does not check the length, so extra leading zero digits are accepted too. */
  lemma NodePrefixAcceptsMore(a: Account, check: Account -> Checksum)
    ensures Parse("node_" + ("1" + Body(a, check)), check) == Some(a)
  {
    hide Number, Body, ToAccount, Accumulated, Value, DecodeAll, HasXrbPrefix, HasNanoPrefix, HasNodeIdPrefix;
    var body := "1" + Body(a, check);
    BodyOfAccount(a, check);
    PrefixOf("node_", body);
    NodeIsNotNano(body);
    LeadingZero(Body(a, check));
    ToAccountOfNumber(a, check);
    AccumulatedIsValue(DecodeAll(body).value);
  }

  lemma NodeIsNotNano(body: string)
    ensures !HasNanoPrefix("node_" + body)
  {
    var s := "node_" + body;
    assert s[..5] == "node_" && s[..5][1] == 'o';
  }

  lemma {:induction false} LeadingZero(cs: string)
    requires DecodeAll(cs).Some?
    ensures DecodeAll("1" + cs).Some?
    ensures Value(DecodeAll("1" + cs).value) == Value(DecodeAll(cs).value)
  {
    var padded := "1" + cs;
    if cs == "" {
      assert padded == "1" && "1"[..0] == "";
      DecodeEncodedDigit(0);
    } else {
      assert padded[..|padded| - 1] == "1" + cs[..|cs| - 1];
      LeadingZero(cs[..|cs| - 1]);
    }
  }
}
