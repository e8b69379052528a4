/** The input checks that run before a firewall rule is written (internal/handler/validate.go). IP
    addresses are checked by `net.ParseIP` and `net.ParseCIDR`, which are not part of this model; the
    character sets below contain everything they accept. */
module Validate {
  import opened Text
  import opened Options

  predicate Digit(c: char) {
    '0' <= c <= '9'
  }

  predicate Letter(c: char) {
    'a' <= c <= 'z' || 'A' <= c <= 'Z'
  }

  /** `strconv.Atoi`. */
  function Atoi(s: string): Option<int> {
    if s == "" then None
    else if s[0] == '+' then Digits(s[1..])
    else if s[0] == '-' then
      match Digits(s[1..])
      case None => None
      case Some(n) => Some(-n)
    else Digits(s)
  }

  function Digits(s: string): (r: Option<int>)
    ensures r.Some? ==> r.value >= 0
  {
    if s == "" || !Digit(s[|s| - 1]) then None
    else if |s| == 1 then Some(s[0] as int - '0' as int)
    else
      match Digits(s[..|s| - 1])
      case None => None
      case Some(n) => Some(10 * n + (s[|s| - 1] as int - '0' as int))
  }

  predicate PortNumber(s: string) {
    Atoi(s).Some? && 1 <= Atoi(s).value <= 65535
  }

  /** A port, or two separated by a colon. */
  predicate ValidPort(port: string) {
    match CutFirst(port, ':')
    case NoCut => PortNumber(port)
    case Cut(low, high) => PortNumber(low) && PortNumber(high)
  }

  predicate AddressChar(c: char) {
    Digit(c) || 'a' <= c <= 'f' || 'A' <= c <= 'F' || c == '.' || c == ':'
  }

  predicate AddressText(s: string) {
    s != "" && forall c <- s :: AddressChar(c)
  }

  predicate CIDRText(s: string) {
    s != "" && forall c <- s :: AddressChar(c) || c == '/'
  }

  predicate ValidPFName(s: string) {
    1 <= |s| <= 50 && forall c <- s :: Letter(c) || Digit(c) || c == '_' || c == '-'
  }

  predicate ValidIface(s: string) {
    1 <= |s| <= 15 && 'a' <= s[0] <= 'z'
    && forall c <- s[1..] :: 'a' <= c <= 'z' || Digit(c) || c in {'_', '.', '@', '-'}
  }

  /** A word that is neither split nor mistaken for an option on a command line, nor for a separator
      in a rule comment. */
  predicate Word(s: string) {
    s != "" && s[0] != '-' && NoSpace(s) && '|' !in s
  }

  lemma {:induction false} DigitsAreDigits(s: string)
    ensures Digits(s).Some? ==> s != "" && forall c <- s :: Digit(c)
  {
    if s != "" && Digit(s[|s| - 1]) {
      DigitsAreDigits(s[..|s| - 1]);
      assert s == s[..|s| - 1] + [s[|s| - 1]];
    }
  }

  lemma PortNumberIsWord(s: string)
    requires PortNumber(s)
    ensures Word(s)
  {
    if s[0] == '+' || s[0] == '-' {
      DigitsAreDigits(s[1..]);
      assert s == [s[0]] + s[1..];
    } else {
      DigitsAreDigits(s);
    }
  }

  lemma ValidPortIsWord(port: string)
    requires ValidPort(port)
    ensures Word(port)
  {
    CutFirstInverse(port, ':');
    match CutFirst(port, ':')
    case NoCut => PortNumberIsWord(port);
    case Cut(low, high) =>
      PortNumberIsWord(low);
      PortNumberIsWord(high);
      assert port[0] == low[0];
  }

  lemma AddressIsWord(s: string)
    requires AddressText(s) || CIDRText(s)
    ensures Word(s)
  {
    assert s[0] in s;
  }

  lemma IfaceIsWord(s: string)
    requires ValidIface(s)
    ensures Word(s)
  {
    assert s == [s[0]] + s[1..];
  }

  // ----- numbers as people write them

  function Decimal(n: nat): string {
    (if n < 10 then "" else Decimal(n / 10)) + [('0' as int + n % 10) as char]
  }

  lemma {:induction false} DigitsOfDecimal(n: nat)
    ensures Digits(Decimal(n)) == Some(n) && Decimal(n) != "" && forall c <- Decimal(n) :: Digit(c)
  {
    var s := Decimal(n);
    if n >= 10 {
      DigitsOfDecimal(n / 10);
      assert s[..|s| - 1] == Decimal(n / 10);
    }
  }

  lemma AtoiOfDecimal(n: nat)
    ensures Atoi(Decimal(n)) == Some(n) && ':' !in Decimal(n)
  {
    DigitsOfDecimal(n);
    assert Decimal(n)[0] in Decimal(n);
  }

  /** A port is a number from 1 to 65535, and a range two of them. */
  lemma PortsExact(n: nat, m: nat)
    ensures ValidPort(Decimal(n)) <==> 1 <= n <= 65535
    ensures ValidPort(Decimal(n) + ":" + Decimal(m)) <==> 1 <= n <= 65535 && 1 <= m <= 65535
  {
    hide Atoi, Decimal;
    AtoiOfDecimal(n);
    AtoiOfDecimal(m);
    CutFirstInverse(Decimal(n), ':');
    CutFirstOf(Decimal(n), ':', Decimal(m));
    assert Decimal(n) + ":" + Decimal(m) == Decimal(n) + [':'] + Decimal(m);
  }
}
