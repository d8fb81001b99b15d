/** Transport addresses: `Address::parse`, and the `tcp://host:port` strings that the library builds. */
module Address {
  import opened Common

  datatype Scheme = Unknown | Tcp | Uds | Shm | Pipe

  datatype Address = Address(scheme: Scheme, schemeText: string, raw: string, host: string, port: nat, name: string)

  const LOOPBACK := "127.0.0.1"
  const SEPARATOR := "://"

  // ---- Searching ----

  predicate SeparatorAt(s: string, i: nat) {
    i + 3 <= |s| && s[i] == ':' && s[i + 1] == '/' && s[i + 2] == '/'
  }

  /** `find("://")`: the first place where the separator starts. */
  function FindSeparator(s: string): Option<nat> {
    if |s| < 3 then None
    else if SeparatorAt(s, 0) then Some(0)
    else
      match FindSeparator(s[1..])
      case None => None
      case Some(i) => Some(i + 1)
  }

  /** `rfind(':')`: the last colon. */
  function LastColon(s: string): Option<nat>
    decreases |s|
  {
    if s == [] then None
    else if s[|s| - 1] == ':' then Some(|s| - 1)
    else LastColon(s[..|s| - 1])
  }

  /** The separator is where it was found, and nowhere earlier; if it was not found it is nowhere. */
  lemma {:induction false} FoundFirst(s: string)
    ensures FindSeparator(s).Some? ==> SeparatorAt(s, FindSeparator(s).value)
    ensures forall j: nat | SeparatorAt(s, j) :: FindSeparator(s).Some? && FindSeparator(s).value <= j
  {
    if |s| < 3 || SeparatorAt(s, 0) {
    } else {
      FoundFirst(s[1..]);
      forall j: nat | SeparatorAt(s, j)
        ensures FindSeparator(s).Some? && FindSeparator(s).value <= j
      {
        assert SeparatorAt(s[1..], j - 1);
      }
    }
  }

  /** The last colon is the one with no colon after it. */
  lemma {:induction false} LastColonAt(a: string, b: string)
    requires ':' !in b
    ensures LastColon(a + ":" + b) == Some(|a|)
    decreases |b|
  {
    var s := a + ":" + b;
    if b == [] {
    } else {
      var b' := b[..|b| - 1];
      assert s[..|s| - 1] == a + ":" + b';
      LastColonAt(a, b');
    }
  }

  lemma {:induction false} LastColonSplits(s: string)
    ensures match LastColon(s)
            case None => ':' !in s
            case Some(i) => i < |s| && s[i] == ':' && ':' !in s[i + 1..]
    decreases |s|
  {
    if s == [] || s[|s| - 1] == ':' {
    } else {
      var p := s[..|s| - 1];
      LastColonSplits(p);
      match LastColon(p)
      case None => assert s == p + [s[|s| - 1]];
      case Some(i) => assert s[i + 1..] == p[i + 1..] + [s[|s| - 1]];
    }
  }

  // ---- Ports ----

  predicate IsDigit(c: char) {
    '0' <= c <= '9'
  }

  predicate AllDigits(s: string) {
    forall c | c in s :: IsDigit(c)
  }

  function DigitValue(c: char): nat
    requires IsDigit(c)
  {
    c as int - '0' as int
  }

  function Value(s: string): nat
    requires AllDigits(s)
  {
    if s == [] then 0 else Value(s[..|s| - 1]) * 10 + DigitValue(s[|s| - 1])
  }

  /** `from_chars` must consume every character, and the result must fit 16 bits. */
  function PortOf(s: string): Option<nat> {
    if s != [] && AllDigits(s) && Value(s) <= 65535 then Some(Value(s)) else None
  }

  /** `std::to_string` of an unsigned number. */
  function Decimal(n: nat): (s: string)
    ensures s != [] && AllDigits(s)
  {
    var last := [('0' as int + n % 10) as char];
    if n < 10 then last else Decimal(n / 10) + last
  }

  lemma {:induction false} DecimalValue(n: nat)
    ensures Value(Decimal(n)) == n
  {
    var d := ('0' as int + n % 10) as char;
    if n < 10 {
    } else {
      DecimalValue(n / 10);
      assert Decimal(n)[..|Decimal(n)| - 1] == Decimal(n / 10);
    }
    assert Decimal(n)[|Decimal(n)| - 1] == d;
  }

  /** The number is written without leading zeros. */
  lemma {:induction false} DecimalIsShortest(n: nat)
    ensures n > 0 ==> Decimal(n)[0] != '0'
    ensures Decimal(0) == "0"
  {
    if n < 10 {
    } else {
      DecimalIsShortest(n / 10);
    }
  }

  /** The value of a digit string, place by place. */
  lemma ValuePlaces(s: string, d: char)
    requires AllDigits(s) && IsDigit(d)
    ensures AllDigits(s + [d]) && Value(s + [d]) == 10 * Value(s) + (d as int - '0' as int)
    ensures Value("") == 0
  {
    assert (s + [d])[..|s|] == s;
  }

  // ---- Parsing ----

  function SchemeOf(text: string): Scheme {
    if text == "tcp" then Tcp else if text == "uds" then Uds
    else if text == "shm" then Shm else if text == "pipe" then Pipe else Unknown
  }

  /** The body of a tcp address, after the scheme. */
  function ParseTcp(sv: string): Result<(string, nat)> {
    match LastColon(sv)
    case None => Err(InvalidArgument)
    case Some(colon) =>
      if colon >= |sv| then Err(InvalidArgument)
      else
        match PortOf(sv[colon + 1..])
        case None => Err(InvalidArgument)
        case Some(port) => Ok((if colon == 0 then LOOPBACK else sv[..colon], port))
  }

  /** The scheme and what follows it; a string without a separator is a tcp body. */
  function SplitScheme(s: string): (string, string) {
    match FindSeparator(s)
    case None => ("tcp", s)
    case Some(i) => if i + 3 <= |s| then (s[..i], s[i + 3..]) else ("tcp", s)
  }

  function Parse(s: string): Result<Address> {
    var (text, sv) := SplitScheme(s);
    var scheme := SchemeOf(text);
    match scheme
    case Tcp =>
      (match ParseTcp(sv)
       case Err(e) => Err(e)
       case Ok((host, port)) => Ok(Address(Tcp, text, s, host, port, "")))
    case Unknown => Err(InvalidArgument)
    case _ => if sv == "" then Err(InvalidArgument) else Ok(Address(scheme, text, s, "", 0, sv))
  }

  /** `TcpAddr::build`. */
  function Build(host: string, port: nat): string {
    Join("tcp", host + ":" + Decimal(port))
  }

  lemma DigitsHaveNoColon(s: string)
    requires AllDigits(s)
    ensures ':' !in s
  {
  }

  /** A scheme, a separator and the rest. */
  function Join(text: string, sv: string): string {
    text + SEPARATOR + sv
  }

  lemma {:induction false} SchemePrefix(text: string, sv: string)
    requires ':' !in text
    ensures FindSeparator(Join(text, sv)) == Some(|text|)
    ensures Join(text, sv)[..|text|] == text && Join(text, sv)[|text| + 3..] == sv
  {
    var s := Join(text, sv);
    if text == "" {
      assert s[0] == SEPARATOR[0] && s[1] == SEPARATOR[1] && s[2] == SEPARATOR[2];
    } else {
      assert text[0] in text;
      assert s[1..] == Join(text[1..], sv);
      SchemePrefix(text[1..], sv);
    }
  }

  lemma TcpBody(host: string, digits: string)
    requires PortOf(digits).Some?
    ensures ParseTcp(host + ":" + digits) == Ok((if host == "" then LOOPBACK else host, PortOf(digits).value))
  {
    var sv := host + ":" + digits;
    DigitsHaveNoColon(digits);
    LastColonAt(host, digits);
    assert sv[|host| + 1..] == digits && sv[..|host|] == host;
  }

  ghost predicate IsTcpBody(sv: string) {
    exists host: string, digits: string :: sv == host + ":" + digits && PortOf(digits).Some?
  }

  /** Exactly the strings `host:digits` with a port that fits are tcp bodies; the last colon decides. */
  lemma TcpAcceptedIff(sv: string)
    ensures ParseTcp(sv).Ok? <==> IsTcpBody(sv)
  {
    LastColonSplits(sv);
    if ParseTcp(sv).Ok? {
      var colon := LastColon(sv).value;
      assert sv == sv[..colon] + ":" + sv[colon + 1..];
    }
    forall host: string, digits: string | sv == host + ":" + digits && PortOf(digits).Some?
      ensures ParseTcp(sv).Ok?
    {
      TcpBody(host, digits);
    }
  }

  lemma BuildsTcp(host: string, port: nat)
    ensures Build(host, port) == "tcp://" + (host + ":" + Decimal(port))
  {
    assert "tcp" + SEPARATOR == "tcp://";
  }

  /** Whatever the host, colons and separators included, a built address parses back to it. */
  lemma BuildThenParse(host: string, port: nat)
    requires port <= 65535
    ensures Parse(Build(host, port))
         == Ok(Address(Tcp, "tcp", Build(host, port), if host == "" then LOOPBACK else host, port, ""))
  {
    var sv := host + ":" + Decimal(port);
    SchemePrefix("tcp", sv);
    DecimalValue(port);
    TcpBody(host, Decimal(port));
  }

  /** Every accepted tcp address has a host and a 16-bit port, and building from them changes neither. */
  lemma ParseThenBuild(s: string)
    requires Parse(s).Ok? && Parse(s).value.scheme == Tcp
    ensures
      var a := Parse(s).value;
      && a.host != "" && a.port <= 65535 && a.raw == s
      && Parse(Build(a.host, a.port)).Ok?
      && Parse(Build(a.host, a.port)).value.host == a.host
      && Parse(Build(a.host, a.port)).value.port == a.port
  {
    var a := Parse(s).value;
    BuildThenParse(a.host, a.port);
  }

  /** The other schemes take the rest of the string as a name, and refuse an empty one. */
  lemma NamesParse(text: string, name: string)
    requires text in ["uds", "shm", "pipe"]
    ensures Parse(Join(text, name))
         == if name == "" then Err(InvalidArgument)
            else Ok(Address(SchemeOf(text), text, Join(text, name), "", 0, name))
  {
    SchemePrefix(text, name);
  }

  // ---- Which strings are addresses ----

  ghost predicate NoSeparator(s: string) {
    forall i: nat :: !SeparatorAt(s, i)
  }

  ghost predicate FirstSeparator(s: string, i: nat) {
    SeparatorAt(s, i) && forall j: nat | j < i :: !SeparatorAt(s, j)
  }

  /** What may stand before and after the first separator. */
  ghost predicate GoodParts(text: string, rest: string) {
    || (text == "tcp" && IsTcpBody(rest))
    || (text in ["uds", "shm", "pipe"] && rest != "")
  }

  lemma SplitAtFirst(s: string)
    ensures NoSeparator(s) ==> SplitScheme(s) == ("tcp", s)
    ensures forall i: nat | FirstSeparator(s, i) :: SplitScheme(s) == (s[..i], s[i + 3..])
    ensures NoSeparator(s) || exists i: nat :: FirstSeparator(s, i)
  {
    FoundFirst(s);
    if FindSeparator(s).Some? { assert FirstSeparator(s, FindSeparator(s).value); }
  }

  lemma PartsDecide(s: string)
    ensures
      var (text, rest) := SplitScheme(s);
      Parse(s).Ok? <==> GoodParts(text, rest)
  {
    TcpAcceptedIff(SplitScheme(s).1);
  }

  /**
    Exactly these strings are addresses: a tcp body without any separator in it, and what the first separator
    splits into "tcp" and a tcp body, or another known scheme and a nonempty name.
   */
  lemma AcceptedIff(s: string)
    ensures Parse(s).Ok? <==>
      || (NoSeparator(s) && IsTcpBody(s))
      || exists i: nat :: FirstSeparator(s, i) && GoodParts(s[..i], s[i + 3..])
  {
    SplitAtFirst(s);
    PartsDecide(s);
    if !NoSeparator(s) {
      var i: nat :| FirstSeparator(s, i);
      assert GoodParts(s[..i], s[i + 3..]) <==> Parse(s).Ok?;
    }
  }

  /** What a tcp body says: the host before its last colon, or the loopback address, and the port after it. */
  ghost predicate SaysTcp(rest: string, host: string, port: nat) {
    exists before: string, digits: string ::
      && rest == before + ":" + digits && PortOf(digits) == Some(port)
      && host == if before == "" then "127.0.0.1" else before
  }

  lemma TcpValue(rest: string)
    ensures ParseTcp(rest).Ok? ==> SaysTcp(rest, ParseTcp(rest).value.0, ParseTcp(rest).value.1)
    ensures ParseTcp(rest).Err? ==> ParseTcp(rest).error == InvalidArgument
    ensures forall host, port: nat | SaysTcp(rest, host, port) :: ParseTcp(rest) == Ok((host, port))
  {
    LastColonSplits(rest);
    if ParseTcp(rest).Ok? {
      var colon := LastColon(rest).value;
      assert rest == rest[..colon] + ":" + rest[colon + 1..];
    }
    forall host, port: nat | SaysTcp(rest, host, port)
      ensures ParseTcp(rest) == Ok((host, port))
    {
      var before: string, digits: string :|
        rest == before + ":" + digits && PortOf(digits) == Some(port)
        && host == if before == "" then "127.0.0.1" else before;
      TcpBody(before, digits);
    }
  }

  /** A tcp body without a separator is a whole address: it gives the host and the port. */
  lemma BodyParses(s: string, host: string, port: nat)
    requires NoSeparator(s) && SaysTcp(s, host, port)
    ensures Parse(s) == Ok(Address(Tcp, "tcp", s, host, port, ""))
  {
    SplitAtFirst(s);
    TcpValue(s);
  }

  /**
    What every accepted address says. It keeps its text; its scheme is what stands before the first separator,
    or tcp; a tcp address says host and port as its body does, and any other keeps the rest as its name. What
    is not accepted is an invalid argument.
   */
  lemma AcceptedSays(s: string)
    ensures Parse(s).Err? ==> Parse(s).error == InvalidArgument
    ensures Parse(s).Ok? ==>
      var a := Parse(s).value;
      a.raw == s
      && (NoSeparator(s) ==> a.scheme == Tcp && a.schemeText == "tcp" && SaysTcp(s, a.host, a.port) && a.name == "")
      && forall i: nat | FirstSeparator(s, i) ::
           && a.schemeText == s[..i] && a.scheme != Unknown
           && (a.scheme == Tcp <==> s[..i] == "tcp") && (a.scheme == Uds <==> s[..i] == "uds")
           && (a.scheme == Shm <==> s[..i] == "shm") && (a.scheme == Pipe <==> s[..i] == "pipe")
           && (if a.scheme == Tcp then SaysTcp(s[i + 3..], a.host, a.port) && a.name == ""
               else a.host == "" && a.port == 0 && a.name == s[i + 3..])
  {
    SplitAtFirst(s);
    TcpValue(SplitScheme(s).1);
  }

  // ---- The parser, step by step ----

  /** Accumulates the digits from the left; `ok` is false at the first other character. */
  method ParseU16(s: string) returns (ok: bool, port: nat)
    ensures ok <==> s != "" && (forall c | c in s :: '0' <= c <= '9') && Value(s) <= 65535
    ensures ok ==> PortOf(s) == Some(port) && port == Value(s)
    ensures !ok ==> PortOf(s) == None
  {
    var v := 0;
    for i := 0 to |s|
      invariant AllDigits(s[..i]) && v == Value(s[..i])
    {
      if !IsDigit(s[i]) {
        assert s[i] in s;
        return false, 0;
      }
      assert s[..i + 1][..i] == s[..i];
      v := v * 10 + DigitValue(s[i]);
    }
    assert s[..|s|] == s;
    if s == "" || v > 65535 {
      return false, 0;
    }
    return true, v;
  }

  method ParseTcpBody(sv: string) returns (r: Result<(string, nat)>)
    ensures r == ParseTcp(sv)
  {
    LastColonSplits(sv);
    var colon := LastColon(sv);
    if colon == None {
      return Err(InvalidArgument);
    }
    var host := sv[..colon.value];
    if host == "" {
      host := LOOPBACK;
    }
    var ok, port := ParseU16(sv[colon.value + 1..]);
    if !ok {
      return Err(InvalidArgument);
    }
    return Ok((host, port));
  }

  /** Fills a local address field by field, from the scheme to the port or the name. */
  method ParseAddress(s: string) returns (r: Result<Address>)
    ensures r == Parse(s)
  {
    var a := Address(Unknown, "", s, "", 0, "");
    var (text, sv) := SplitScheme(s);
    a := a.(schemeText := text);
    a := a.(scheme := SchemeOf(text));
    if a.scheme == Tcp {
      var body := ParseTcpBody(sv);
      if body.Err? {
        return Err(body.error);
      }
      return Ok(a.(host := body.value.0, port := body.value.1));
    }
    if a.scheme == Shm || a.scheme == Pipe || a.scheme == Uds {
      if sv == "" {
        return Err(InvalidArgument);
      }
      return Ok(a.(name := sv));
    }
    return Err(InvalidArgument);
  }
}
