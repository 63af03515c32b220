/** Printing and parsing PCI addresses: `gpu/contention/parse.cc`. */
module PciBusId {
  import opened Prelude

  // ----- Hexadecimal digits

  function Digit(n: nat): char
    requires n < 16
  {
    if n < 10 then '0' + n as char else 'a' + (n - 10) as char
  }

  predicate IsHex(c: char) {
    '0' <= c <= '9' || 'a' <= c <= 'f' || 'A' <= c <= 'F'
  }

  predicate IsLowerHex(c: char) {
    '0' <= c <= '9' || 'a' <= c <= 'f'
  }

  /** The value of a digit of either case. */
  function DigitValue(c: char): (r: nat)
    requires IsHex(c)
    ensures r < 16
  {
    if c <= '9' then (c - '0') as nat else if c >= 'a' then (c - 'a') as nat + 10 else (c - 'A') as nat + 10
  }

  /** "%0<width>x": lower-case hexadecimal with at least `width` digits. */
  function Hex(n: nat, width: nat): string {
    if n == 0 && width == 0 then "" else Hex(n / 16, Max(width - 1, 0)) + [Digit(n % 16)]
  }

  function HexValue(s: string): nat
    requires forall i :: 0 <= i < |s| ==> IsHex(s[i])
  {
    if s == "" then 0 else HexValue(s[..|s| - 1]) * 16 + DigitValue(s[|s| - 1])
  }

  lemma {:induction false} HexReadsBack(n: nat, width: nat)
    ensures forall i :: 0 <= i < |Hex(n, width)| ==> IsHex(Hex(n, width)[i])
    ensures HexValue(Hex(n, width)) == n && |Hex(n, width)| >= width
  {
    if n > 0 || width > 0 {
      HexReadsBack(n / 16, Max(width - 1, 0));
      assert Hex(n, width)[..|Hex(n, width)| - 1] == Hex(n / 16, Max(width - 1, 0));
    }
  }

  /** All digits printed are lower-case. */
  lemma {:induction false} HexIsLower(n: nat, width: nat)
    ensures forall i :: 0 <= i < |Hex(n, width)| ==> IsLowerHex(Hex(n, width)[i])
  {
    if n > 0 || width > 0 {
      HexIsLower(n / 16, Max(width - 1, 0));
    }
  }

  lemma DigitReadsBack(c: char)
    requires IsHex(c) && IsLowerHex(c)
    ensures Digit(DigitValue(c)) == c
  {
  }

  lemma HexNext(v: nat, d: nat, n: nat)
    requires d < 16
    ensures Hex(v * 16 + d, n + 1) == Hex(v, n) + [Digit(d)]
  {
    assert (v * 16 + d) / 16 == v && (v * 16 + d) % 16 == d;
  }

  /** And lower-case digits are what their value is printed as. */
  lemma {:induction false} PrintedAsRead(s: string)
    requires forall i :: 0 <= i < |s| ==> IsHex(s[i]) && IsLowerHex(s[i])
    ensures Hex(HexValue(s), |s|) == s
  {
    if s != "" {
      var front, last := s[..|s| - 1], s[|s| - 1];
      PrintedAsRead(front);
      DigitReadsBack(last);
      assert HexValue(s) == HexValue(front) * 16 + DigitValue(last);
      HexNext(HexValue(front), DigitValue(last), |front|);
      hide Hex, HexValue, Digit, DigitValue;
      assert front + [last] == s;
    }
  }

  /** A capital digit stands for the small one. */
  function Lower(c: char): char
    requires IsHex(c)
  {
    if 'A' <= c <= 'F' then c - 'A' + 'a' else c
  }

  lemma {:induction false} CaseIgnored(s: string, t: string)
    requires |s| == |t| && forall i :: 0 <= i < |s| ==> IsHex(s[i]) && IsHex(t[i]) && Lower(s[i]) == Lower(t[i])
    ensures HexValue(s) == HexValue(t)
  {
    if s != "" {
      CaseIgnored(s[..|s| - 1], t[..|t| - 1]);
    }
  }

  function PowerOf16(width: nat): nat {
    if width == 0 then 1 else 16 * PowerOf16(width - 1)
  }

  lemma {:induction false} HexFits(n: nat, width: nat)
    requires n < PowerOf16(width)
    ensures |Hex(n, width)| == width
  {
    if width > 0 {
      HexFits(n / 16, width - 1);
    }
  }

  // ----- The cursor: what the parser has still to read

  /** How many of the first characters are hex digits. */
  function HexRun(s: string): (r: nat)
    ensures r <= |s| && forall i :: 0 <= i < r ==> IsHex(s[i])
    ensures r < |s| ==> !IsHex(s[r])
  {
    if s == "" || !IsHex(s[0]) then 0 else 1 + HexRun(s[1..])
  }

  lemma {:induction false} HexRunOf(digits: string, rest: string)
    requires forall i :: 0 <= i < |digits| ==> IsHex(digits[i])
    requires rest == "" || !IsHex(rest[0])
    ensures HexRun(digits + rest) == |digits|
  {
    if digits == "" {
      assert digits + rest == rest;
    } else {
      HexRunOf(digits[1..], rest);
      assert (digits + rest)[1..] == digits[1..] + rest;
    }
  }

  /** What the digits in front amount to, unless there are none or too many, and what is behind them. */
  function Taken(s: string, maxDigits: nat): Option<(nat, string)> {
    var n := HexRun(s);
    if n == 0 || n > maxDigits then None else Some((HexValue(s[..n]), s[n..]))
  }

  lemma {:induction false} HexValueBounded(s: string)
    requires forall i :: 0 <= i < |s| ==> IsHex(s[i])
    ensures HexValue(s) < PowerOf16(|s|)
  {
    if s != "" {
      HexValueBounded(s[..|s| - 1]);
    }
  }

  lemma {:induction false} PowerOf16Grows(m: nat, n: nat)
    requires m <= n
    ensures PowerOf16(m) <= PowerOf16(n)
  {
    if m < n {
      PowerOf16Grows(m, n - 1);
    }
  }

  /** Parse the run at the front of the cursor and advance it past, giving a 32-bit value (eight
      digits at most, so nothing is cut off). A failure leaves the cursor where it was. */
  method TakeHex(s: string, maxDigits: nat) returns (ok: bool, rest: string, value: uint32)
    requires maxDigits <= 8
    ensures ok <==> Taken(s, maxDigits).Some?
    ensures ok ==> (value, rest) == Taken(s, maxDigits).value
    ensures !ok ==> rest == s
  {
    var n, v := 0, 0;
    rest, value := s, 0;
    hide Taken, HexRun;
    while n < |s| && IsHex(s[n])
      invariant n <= |s| && n <= maxDigits
      invariant forall i :: 0 <= i < n ==> IsHex(s[i])
      invariant v == HexValue(s[..n])
    {
      if n == maxDigits {
        TooManyDigits(s, maxDigits);
        return false, s, 0;
      }
      assert s[..n + 1][..n] == s[..n];
      v := v * 16 + DigitValue(s[n]);
      n := n + 1;
    }
    TakenIs(s, n, maxDigits);
    if n == 0 {
      return false, s, 0;
    }
    return true, s[n..], v;
  }

  lemma TooManyDigits(s: string, maxDigits: nat)
    requires maxDigits < |s| && forall i :: 0 <= i <= maxDigits ==> IsHex(s[i])
    ensures Taken(s, maxDigits) == None
  {
    RunIsLonger(s, maxDigits + 1);
  }

  lemma TakenIs(s: string, n: nat, maxDigits: nat)
    requires n <= |s| && n <= maxDigits <= 8 && (n < |s| ==> !IsHex(s[n]))
    requires forall i :: 0 <= i < n ==> IsHex(s[i])
    ensures n == 0 ==> Taken(s, maxDigits) == None
    ensures n > 0 ==> HexValue(s[..n]) < 0x1_0000_0000 && Taken(s, maxDigits) == Some((HexValue(s[..n]), s[n..]))
  {
    assert s == s[..n] + s[n..];
    HexRunOf(s[..n], s[n..]);
    if n > 0 {
      HexValueBounded(s[..n]);
      PowerOf16Grows(n, 8);
      EightDigits();
    }
  }

  lemma EightDigits()
    ensures PowerOf16(8) == 0x1_0000_0000
  {
    assert PowerOf16(4) == 0x1_0000;
  }

  lemma {:induction false} RunIsLonger(s: string, n: nat)
    requires n <= |s| && forall i :: 0 <= i < n ==> IsHex(s[i])
    ensures HexRun(s) >= n
  {
  }

  method TakeChar(s: string, c: char) returns (ok: bool, rest: string)
    ensures ok <==> s != "" && s[0] == c
    ensures rest == if ok then s[1..] else s
  {
    if s == "" || s[0] != c {
      return false, s;
    }
    return true, s[1..];
  }

  // ----- Addresses

  datatype Address = Address(domain: nat, bus: nat, device: nat, function_: nat)

  predicate InRange(a: Address) {
    a.domain <= 0xffff && a.bus <= 0xff && a.device <= 0x1f && a.function_ <= 7
  }

  /** "dddd:bb:dd.f" */
  function FormatPciBusId(a: Address): string {
    Hex(a.domain, 4) + (":" + (Hex(a.bus, 2) + (":" + (Hex(a.device, 2) + ("." + Hex(a.function_, 1))))))
  }

  /** Twelve characters: lower-case digits, with colons behind four and seven of them and a dot behind ten. */
  lemma FormatShape(a: Address)
    requires InRange(a)
    ensures var text := FormatPciBusId(a);
            && |text| == 12 && text[4] == text[7] == ':' && text[10] == '.'
            && forall i :: 0 <= i < 12 && i != 4 && i != 7 && i != 10 ==> IsLowerHex(text[i])
  {
    HexWithin(a.domain, 4);
    HexWithin(a.bus, 2);
    HexWithin(a.device, 2);
    HexWithin(a.function_, 1);
    hide Hex;
    HexIsLower(a.domain, 4);
    HexIsLower(a.bus, 2);
    HexIsLower(a.device, 2);
    HexIsLower(a.function_, 1);
  }

  lemma HexWithin(n: nat, width: nat)
    requires width <= 4 && n < if width == 4 then 0x1_0000 else if width == 2 then 0x100 else 0x10
    requires width in {1, 2, 4}
    ensures |Hex(n, width)| == width
  {
    assert PowerOf16(1) == 0x10 && PowerOf16(2) == 0x100 && PowerOf16(4) == 0x1_0000;
    HexFits(n, width);
  }

  /** The values of up to `left` fields, with a colon between any two, and what is behind them. */
  function Fields(s: string, left: nat): Option<(seq<nat>, string)> {
    if left == 0 then None
    else match Taken(s, 8)
      case None => None
      case Some((value, rest)) =>
        if rest == "" || rest[0] != ':' then Some(([value], rest))
        else match Fields(rest[1..], left - 1)
          case None => None
          case Some((values, end)) => Some(([value] + values, end))
  }

  /** The address that a text spells, if it spells one. */
  function Parse(text: string): Option<Address> {
    match Fields(text, 3)
    case None => None
    case Some((fields, rest)) =>
      if |fields| < 2 || rest == "" || rest[0] != '.' then None
      else match Taken(rest[1..], 1)
        case None => None
        case Some((function_, end)) =>
          var domain := if |fields| == 3 then fields[0] else 0;
          var a := Address(domain, fields[|fields| - 2], fields[|fields| - 1], function_);
          if end != "" || !InRange(a) then None else Some(a)
  }

  function Canonical(text: string): string {
    match Parse(text)
    case None => ""
    case Some(a) => FormatPciBusId(a)
  }

  /** The fields parsed so far, with those still to come. */
  function Behind(done: seq<nat>, more: Option<(seq<nat>, string)>): Option<(seq<nat>, string)> {
    match more
    case None => None
    case Some((values, end)) => Some((done + values, end))
  }

  lemma BehindNothing(more: Option<(seq<nat>, string)>)
    ensures Behind([], more) == more
  {
    match more
    case None =>
    case Some((values, end)) => assert [] + values == values;
  }

  /** What taking one more field, or failing to, says about the fields of the whole text. */
  lemma FieldsStep(done: seq<nat>, s: string, left: nat)
    ensures left == 0 || Taken(s, 8) == None ==> Behind(done, Fields(s, left)) == None
    ensures left > 0 && Taken(s, 8).Some? ==>
      var (value, rest) := Taken(s, 8).value;
      Behind(done, Fields(s, left)) ==
        if rest == "" || rest[0] != ':' then Some((done + [value], rest))
        else Behind(done + [value], Fields(rest[1..], left - 1))
  {
    hide Taken;
    if left > 0 && Taken(s, 8).Some? {
      var (value, rest) := Taken(s, 8).value;
      if rest != "" && rest[0] == ':' && Fields(rest[1..], left - 1).Some? {
        var (values, end) := Fields(rest[1..], left - 1).value;
        assert done + ([value] + values) == done + [value] + values;
      }
    }
  }

  /** Normalise the spelling of an address, or return nothing. */
  method CanonicalPciBusId(text: string) returns (id: string)
    ensures id == Canonical(text)
  {
    hide Taken, Fields, Behind, FormatPciBusId;
    var fields: seq<nat> := [];
    var s := text;
    BehindNothing(Fields(text, 3));
    while true
      invariant |fields| <= 3 && Fields(text, 3) == Behind(fields, Fields(s, 3 - |fields|))
      decreases 3 - |fields|
    {
      FieldsStep(fields, s, 3 - |fields|);
      if |fields| == 3 {
        return "";
      }
      var ok, value;
      ok, s, value := TakeHex(s, 8);
      if !ok {
        return "";
      }
      fields := fields + [value];
      ok, s := TakeChar(s, ':');
      if !ok {
        assert Fields(text, 3) == Some((fields, s));
        break;
      }
    }
    if |fields| < 2 {
      return "";
    }
    var ok, function_;
    ok, s := TakeChar(s, '.');
    if !ok {
      return "";
    }
    ok, s, function_ := TakeHex(s, 1);
    if !ok || s != "" {
      return "";
    }
    var domain := if |fields| == 3 then fields[0] else 0;
    var bus, device := fields[|fields| - 2], fields[|fields| - 1];
    if domain > 0xffff || bus > 0xff || device > 0x1f || function_ > 7 {
      return "";
    }
    return FormatPciBusId(Address(domain, bus, device, function_));
  }

  // ----- What printing and parsing promise

  predicate HexField(s: string, maxDigits: nat) {
    0 < |s| <= maxDigits && forall i :: 0 <= i < |s| ==> IsHex(s[i])
  }

  /** A run of digits in front of anything else is read as its value, ... */
  lemma FieldTaken(digits: string, maxDigits: nat, rest: string)
    requires HexField(digits, maxDigits) && (rest == "" || !IsHex(rest[0]))
    ensures Taken(digits + rest, maxDigits) == Some((HexValue(digits), rest))
  {
    HexRunOf(digits, rest);
    assert (digits + rest)[..|digits|] == digits && (digits + rest)[|digits|..] == rest;
  }

  /** ... and nothing else is read. */
  lemma TakenField(s: string, maxDigits: nat) returns (digits: string)
    requires Taken(s, maxDigits).Some?
    ensures HexField(digits, maxDigits)
    ensures Taken(s, maxDigits).value.0 == HexValue(digits) && s == digits + Taken(s, maxDigits).value.1
  {
    digits := s[..HexRun(s)];
  }

  /** How an address may be spelled: hex fields of up to eight digits of either case, the domain
      only if `full`, and a single digit for the function. */
  datatype Spelling = Spelling(full: bool, domain: string, bus: string, device: string, function_: string) {

    predicate Valid() {
      && (full ==> HexField(domain, 8)) && HexField(bus, 8) && HexField(device, 8) && HexField(function_, 1)
    }

    function Tail(): string {
      bus + (":" + (device + ("." + function_)))
    }

    function Text(): string {
      if full then domain + (":" + Tail()) else Tail()
    }

    function Meaning(): Address
      requires Valid()
    {
      Address(if full then HexValue(domain) else 0, HexValue(bus), HexValue(device), HexValue(function_))
    }
  }

  /** Every spelling of an address in range is read as that address, ... */
  lemma SpellingParsed(sp: Spelling)
    requires sp.Valid()
    ensures Parse(sp.Text()) == if InRange(sp.Meaning()) then Some(sp.Meaning()) else None
  {
    hide Taken, Fields, HexValue, InRange;
    var function_, device := "." + sp.function_, sp.device + ("." + sp.function_);
    var bus := sp.bus + (":" + device);
    FieldTaken(sp.bus, 8, ":" + device);
    FieldTaken(sp.device, 8, function_);
    FieldTaken(sp.function_, 1, "");
    assert sp.function_ + "" == sp.function_;
    assert (":" + bus)[1..] == bus && (":" + device)[1..] == device && function_[1..] == sp.function_;
    var left := if sp.full then 2 else 3;
    FieldsStep([], device, left - 1);
    FieldsStep([], bus, left);
    BehindNothing(Fields(device, left - 1));
    BehindNothing(Fields(bus, left));
    var b, d := HexValue(sp.bus), HexValue(sp.device);
    assert [] + [d] == [d] && [] + [b] + [d] == [b, d];
    if sp.full {
      FieldTaken(sp.domain, 8, ":" + bus);
      FieldsStep([], sp.Text(), 3);
      BehindNothing(Fields(sp.Text(), 3));
      assert [] + [HexValue(sp.domain)] + [b, d] == [HexValue(sp.domain), b, d];
    }
  }

  lemma FieldsSpelled(s: string, left: nat) returns (digits: seq<string>)
    requires Fields(s, left).Some?
    ensures var (values, end) := Fields(s, left).value;
            && 0 < |digits| == |values| <= left
            && (forall i :: 0 <= i < |digits| ==> HexField(digits[i], 8) && HexValue(digits[i]) == values[i])
            && s == Joined(digits) + end
    decreases left
  {
    hide Taken, HexValue, HexField;
    var first := TakenField(s, 8);
    var (value, rest) := Taken(s, 8).value;
    if rest == "" || rest[0] != ':' {
      digits := [first];
    } else {
      var more := FieldsSpelled(rest[1..], left - 1);
      var (values, end) := Fields(rest[1..], left - 1).value;
      digits := [first] + more;
      assert digits[1..] == more;
      assert rest == ":" + (Joined(more) + end);
      assert first + (":" + (Joined(more) + end)) == first + (":" + Joined(more)) + end;
    }
  }

  function Joined(digits: seq<string>): string
    requires digits != []
  {
    if |digits| == 1 then digits[0] else digits[0] + (":" + Joined(digits[1..]))
  }

  lemma JoinedIs(digits: seq<string>, end: string)
    requires 2 <= |digits| <= 3
    ensures var n := |digits|;
            var tail := digits[n - 2] + (":" + (digits[n - 1] + end));
            Joined(digits) + end == if n == 3 then digits[0] + (":" + tail) else tail
  {
    JoinedNext(digits, end);
    if |digits| == 2 {
      assert Joined(digits[1..]) == digits[1];
    } else {
      hide Joined;
      JoinedIs(digits[1..], end);
    }
  }

  lemma JoinedNext(digits: seq<string>, end: string)
    requires |digits| >= 2
    ensures Joined(digits) + end == digits[0] + (":" + (Joined(digits[1..]) + end))
  {
    var first, rest := digits[0], Joined(digits[1..]);
    assert Joined(digits) == first + (":" + rest);
    hide Joined;
    AssociateThree(first, ":", rest, end);
  }

  lemma AssociateThree(a: string, b: string, c: string, d: string)
    ensures a + (b + c) + d == a + (b + (c + d))
  {
  }

  /** ... and no other text is read as one. */
  lemma ParsedIsSpelling(text: string) returns (sp: Spelling)
    requires Parse(text).Some?
    ensures sp.Valid() && sp.Text() == text && sp.Meaning() == Parse(text).value
  {
    hide Taken, Fields, HexValue, HexField;
    var digits := FieldsSpelled(text, 3);
    var (values, rest) := Fields(text, 3).value;
    var last := TakenField(rest[1..], 1);
    var n := |digits|;
    sp := Spelling(n == 3, if n == 3 then digits[0] else "", digits[n - 2], digits[n - 1], last);
    assert rest == "." + last by {
      assert last + "" == last;
    }
    JoinedIs(digits, rest);
  }

  /** A printed number is a field that reads as the number. */
  lemma PrintedField(n: nat, width: nat)
    requires n < PowerOf16(width) && 0 < width
    ensures HexField(Hex(n, width), width) && HexValue(Hex(n, width)) == n
  {
    HexReadsBack(n, width);
    HexFits(n, width);
  }

  /** Parsing inverts printing, for all addresses in range. */
  lemma ParseFormat(a: Address)
    requires a.domain < 0x1_0000 && a.bus < 0x100 && a.device < 0x20 && a.function_ < 8
    ensures Parse(FormatPciBusId(a)) == Some(a)
  {
    hide Hex, Parse;
    assert PowerOf16(1) == 16 && PowerOf16(2) == 0x100 && PowerOf16(4) == 0x1_0000;
    PrintedField(a.domain, 4);
    PrintedField(a.bus, 2);
    PrintedField(a.device, 2);
    PrintedField(a.function_, 1);
    SpellingParsed(Spelling(true, Hex(a.domain, 4), Hex(a.bus, 2), Hex(a.device, 2), Hex(a.function_, 1)));
  }

  /** So a printed address is its own canonical form, ... */
  lemma CanonicalKeepsPrinted(a: Address)
    requires InRange(a)
    ensures Canonical(FormatPciBusId(a)) == FormatPciBusId(a)
  {
    ParseFormat(a);
  }

  lemma ParsedInRange(text: string)
    ensures match Parse(text)
            case Some(a) => a.domain < 0x1_0000 && a.bus < 0x100 && a.device < 0x20 && a.function_ < 8
            case None => true
  {
  }

  /** ... every canonical form is a fixed point, ... */
  lemma CanonicalOnce(text: string)
    ensures Canonical(Canonical(text)) == Canonical(text)
  {
    hide Parse, FormatPciBusId;
    match Parse(text)
    case None => NothingParsed();
    case Some(a) =>
      ParsedInRange(text);
      ParseFormat(a);
  }

  lemma NothingParsed()
    ensures Parse("") == None
  {
  }

  /** ... and no two addresses are printed alike. */
  lemma FormatInjective(a: Address, b: Address)
    requires InRange(a) && InRange(b) && FormatPciBusId(a) == FormatPciBusId(b)
    ensures a == b
  {
    ParseFormat(a);
    ParseFormat(b);
  }

  /** amdkfd's packed location. */
  function KfdPciBusId(domain: uint32, locationId: uint32): string {
    FormatPciBusId(Address(domain, locationId / 0x100 % 0x100, locationId / 8 % 0x20, locationId % 8))
  }

  function Packed(above: nat, a: Address): nat {
    above * 0x1_0000 + a.bus * 0x100 + a.device * 8 + a.function_
  }

  lemma Unpacked(above: nat, a: Address)
    requires a.bus < 0x100 && a.device < 0x20 && a.function_ < 8
    ensures var location := Packed(above, a);
            location / 0x100 % 0x100 == a.bus && location / 8 % 0x20 == a.device && location % 8 == a.function_
  {
    var location := Packed(above, a);
    assert location / 8 == above * 0x2000 + a.bus * 0x20 + a.device;
    assert location / 0x100 == above * 0x100 + a.bus;
  }

  /** Printing a packed location prints what was packed, whatever is above it in the word. */
  lemma KfdUnpacks(a: Address, above: nat)
    requires InRange(a) && Packed(above, a) < 0x1_0000_0000
    ensures KfdPciBusId(a.domain, Packed(above, a)) == FormatPciBusId(a)
    ensures Parse(KfdPciBusId(a.domain, Packed(above, a))) == Some(a)
  {
    hide FormatPciBusId, Parse, Packed;
    Unpacked(above, a);
    ParseFormat(a);
  }
}
