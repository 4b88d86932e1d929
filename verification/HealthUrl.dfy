/**
 The URL a health check requests, and how it is taken apart again
 (src/health_check.rs, start_health_checks and do_get).
 */
module HealthUrl {
  import opened Prelude
  import opened Decimal

  const SCHEME: string := "http://"

  function TrimEndSlashes(s: string): string {
    if s != [] && s[|s| - 1] == '/' then TrimEndSlashes(s[..|s| - 1]) else s
  }

  function WithSlash(path: string): string {
    if path != [] && path[0] == '/' then path else "/" + path
  }

  function CheckUrl(backendUrl: string, path: string): string {
    TrimEndSlashes(backendUrl) + WithSlash(path)
  }

  function Find(s: string, c: char): (i: Option<nat>)
    ensures i.None? <==> c !in s
    ensures i.Some? ==> i.value < |s| && s[i.value] == c && c !in s[..i.value]
  {
    if s == [] then None
    else
      var n := |s| - 1;
      assert s == s[..n] + [s[n]];
      match Find(s[..n], c)
      case Some(i) => assert s[..n][..i] == s[..i]; Some(i)
      case None => if s[n] == c then Some(n) else None
  }

  function FindLast(s: string, c: char): (i: Option<nat>)
    ensures i.None? <==> c !in s
    ensures i.Some? ==> i.value < |s| && s[i.value] == c && c !in s[i.value + 1..]
  {
    if s == [] then None
    else
      var n := |s| - 1;
      assert s == s[..n] + [s[n]];
      if s[n] == c then Some(n)
      else
        match FindLast(s[..n], c)
        case Some(i) => assert s[i + 1..] == s[..n][i + 1..] + [s[n]]; Some(i)
        case None => None
  }

  /** `str::parse::<u16>`: an optional plus sign and at least one digit, up to 65535. */
  function ParseU16(s: string): Option<nat> {
    var digits := if s != [] && s[0] == '+' then s[1..] else s;
    if !IsNumeral(digits) then None
    else if Value(digits) > 0xFFFF then None
    else Some(Value(digits))
  }

  datatype Target = Target(host: string, port: nat, path: string)

  /** An authority taken apart at its last colon; a port that cannot be read is 80. */
  function TargetOf(hostPort: string, path: string): Target {
    match FindLast(hostPort, ':')
    case Some(i) =>
      var port := match ParseU16(hostPort[i + 1..]) case Some(p) => p case None => 80;
      Target(hostPort[..i], port, path)
    case None => Target(hostPort, 80, path)
  }

  /** Host, port and path of a URL; `None` for anything but plain http. */
  function Split(url: string): Option<Target> {
    if !(SCHEME <= url) then None
    else
      var rest := url[|SCHEME|..];
      match Find(rest, '/')
      case Some(i) => Some(TargetOf(rest[..i], rest[i..]))
      case None => Some(TargetOf(rest, "/"))
  }

  // ---------------------------------------------------------------------------------
  // Taking apart undoes putting together
  // ---------------------------------------------------------------------------------

  function Authority(host: string, port: Option<nat>): string {
    match port
    case None => host
    case Some(p) => host + ":" + Print(p)
  }

  function Slashes(n: nat): string {
    seq(n, _ => '/')
  }

  lemma {:induction false} TrimUndoesSlashes(s: string, n: nat)
    requires s != [] && s[|s| - 1] != '/'
    ensures TrimEndSlashes(s + Slashes(n)) == s
  {
    if n > 0 {
      var t := s + Slashes(n);
      assert t[..|t| - 1] == s + Slashes(n - 1);
      TrimUndoesSlashes(s, n - 1);
    } else {
      assert s + Slashes(0) == s;
    }
  }

  lemma ParseUndoesPrint(p: nat)
    requires p <= 0xFFFF
    ensures ParseU16(Print(p)) == Some(p)
  {
    ValueOfPrint(p);
    assert IsDigit(Print(p)[0]);
  }

  lemma FirstSlash(a: string, path: string)
    requires '/' !in a && path != [] && path[0] == '/'
    ensures Find(a + path, '/') == Some(|a|)
  {
    var s, i := a + path, Find(a + path, '/');
    assert s[|a|] == '/' && s[..|a|] == a;
    FirstBound(s, '/', |a|, i.value);
    FirstBound(s, '/', i.value, |a|);
  }

  lemma NoSlash(a: string)
    requires '/' !in a
    ensures Find(a, '/') == None
  {}

  lemma LastColon(host: string, port: string)
    requires ':' !in port
    ensures FindLast(host + ":" + port, ':') == Some(|host|)
  {
    var s, i := host + ":" + port, FindLast(host + ":" + port, ':');
    assert s[|host|] == ':' && s[|host| + 1..] == port;
    LastBound(s, ':', |host|, i.value + 1);
    LastBound(s, ':', i.value, |host| + 1);
  }

  lemma AuthorityIsPlain(host: string, port: Option<nat>)
    requires host != [] && '/' !in host
    ensures var a := Authority(host, port); a != [] && '/' !in a && a[|a| - 1] != '/'
  {}

  /** The check URL of `http://host[:port]` with trailing slashes, for a path with a leading slash and without. */
  lemma CheckUrlOf(host: string, port: Option<nat>, slashes: nat, name: string)
    requires host != [] && '/' !in host
    ensures var base := "http://" + Authority(host, port) + Slashes(slashes);
            && CheckUrl(base, "/" + name) == "http://" + (Authority(host, port) + ("/" + name))
            && (name == [] || name[0] != '/' ==> CheckUrl(base, name) == CheckUrl(base, "/" + name))
  {
    AuthorityIsPlain(host, port);
    var a, path := Authority(host, port), "/" + name;
    hide Authority, TrimEndSlashes, Slashes;
    TrimUndoesSlashes("http://" + a, slashes);
    assert WithSlash(path) == path && (name == [] || name[0] != '/' ==> WithSlash(name) == path);
    assert "http://" + a + path == "http://" + (a + path);
  }

  /**
   The URL is taken apart at the first slash after the scheme and at the last colon before
   that; without a path it asks for "/", and without a port that can be read for port 80.
   */
  lemma SplitsAt(host: string, colon: string, path: string)
    requires '/' !in host + colon && (path != [] ==> path[0] == '/')
    requires if colon == [] then ':' !in host else colon[0] == ':' && ':' !in colon[1..]
    ensures var port := if colon == [] then None else ParseU16(colon[1..]);
            Split("http://" + (host + colon + path))
            == Some(Target(host, match port case Some(p) => p case None => 80, if path == [] then "/" else path))
  {
    hide ParseU16, Find, FindLast, TargetOf;
    SplitsAtSlash(host + colon, path);
    TargetAtColon(host, colon, if path == [] then "/" else path);
    assert host + colon + path == (host + colon) + path;
  }

  lemma SplitsAtSlash(a: string, path: string)
    requires '/' !in a && (path != [] ==> path[0] == '/')
    ensures Split("http://" + (a + path)) == Some(TargetOf(a, if path == [] then "/" else path))
  {
    hide Find, TargetOf;
    assert ("http://" + (a + path))[|SCHEME|..] == a + path;
    if path == [] {
      assert a + path == a;
      NoSlash(a);
    } else {
      FirstSlash(a, path);
      assert (a + path)[..|a|] == a && (a + path)[|a|..] == path;
    }
  }

  lemma TargetAtColon(host: string, colon: string, path: string)
    requires if colon == [] then ':' !in host else colon[0] == ':' && ':' !in colon[1..]
    ensures var port := if colon == [] then None else ParseU16(colon[1..]);
            TargetOf(host + colon, path) == Target(host, match port case Some(p) => p case None => 80, path)
  {
    hide ParseU16, FindLast;
    var a := host + colon;
    if colon == [] {
      assert a == host;
    } else {
      assert colon == ":" + colon[1..] && a == host + ":" + colon[1..];
      LastColon(host, colon[1..]);
      assert a[..|host|] == host && a[|host| + 1..] == colon[1..];
    }
  }

  function Zeros(n: nat): string {
    seq(n, _ => '0')
  }

  lemma {:induction false} ZerosAddNothing(n: nat, s: string)
    requires forall i | 0 <= i < |s| :: IsDigit(s[i])
    ensures Value(Zeros(n) + s) == Value(s)
    decreases |s|, n
  {
    var t := Zeros(n) + s;
    if s != [] {
      assert t[..|t| - 1] == Zeros(n) + s[..|s| - 1];
      ZerosAddNothing(n, s[..|s| - 1]);
    } else if n > 0 {
      assert t[..|t| - 1] == Zeros(n - 1) + s;
      ZerosAddNothing(n - 1, s);
    } else {
      assert t == s;
    }
  }

  /** A nonempty numeral is zeros followed by the number as it is printed. */
  lemma {:induction false} StripZeros(s: string) returns (zeros: nat)
    requires IsNumeral(s)
    ensures s == Zeros(zeros) + Print(Value(s))
  {
    if IsCanonical(s) {
      zeros := 0;
      PrintOfValue(s);
      assert Zeros(0) + s == s;
    } else {
      hide Print, Value;
      zeros := StripZeros(s[1..]);
      assert s == Zeros(1) + s[1..];
      ZerosAddNothing(1, s[1..]);
      assert Zeros(1) + (Zeros(zeros) + Print(Value(s))) == Zeros(zeros + 1) + Print(Value(s));
      zeros := zeros + 1;
    }
  }

  /** The port texts that mean `p`: leading zeros and one plus sign are allowed. */
  ghost predicate Denotes(s: string, p: nat) {
    exists plus: bool, zeros: nat :: s == PortText(plus, zeros, p)
  }

  function PortText(plus: bool, zeros: nat, p: nat): string {
    (if plus then "+" else "") + Zeros(zeros) + Print(p)
  }

  lemma PlainParses(digits: string)
    requires IsNumeral(digits)
    ensures ParseU16(digits) == if Value(digits) > 65535 then None else Some(Value(digits))
    ensures ParseU16("+" + digits) == ParseU16(digits)
  {
    assert ("+" + digits)[1..] == digits && IsDigit(digits[0]);
  }

  lemma PortTextParses(plus: bool, zeros: nat, p: nat)
    requires p <= 65535
    ensures ParseU16(PortText(plus, zeros, p)) == Some(p)
  {
    hide ParseU16, Value, Print;
    var digits := Zeros(zeros) + Print(p);
    ZerosAddNothing(zeros, Print(p));
    ValueOfPrint(p);
    PlainParses(digits);
    assert PortText(plus, zeros, p) == if plus then "+" + digits else digits;
  }

  lemma ParsedIsNumeral(s: string) returns (plus: bool, digits: string)
    requires ParseU16(s).Some?
    ensures s == (if plus then "+" else "") + digits
    ensures IsNumeral(digits) && ParseU16(s) == Some(Value(digits)) && Value(digits) <= 65535
  {
    plus := s != [] && s[0] == '+';
    digits := if plus then s[1..] else s;
  }

  /** A port is understood iff its text is a numeral up to 65535. */
  lemma ParseU16Iff(s: string, p: nat)
    ensures ParseU16(s) == Some(p) <==> p <= 65535 && Denotes(s, p)
  {
    hide ParseU16, Value, Print;
    if p <= 65535 && Denotes(s, p) {
      var plus: bool, zeros: nat :| s == PortText(plus, zeros, p);
      PortTextParses(plus, zeros, p);
    }
    if ParseU16(s) == Some(p) {
      var plus, digits := ParsedIsNumeral(s);
      var zeros := StripZeros(digits);
      assert s == PortText(plus, zeros, p);
    }
  }

  lemma SplitOf(host: string, port: Option<nat>, path: string)
    requires host != [] && '/' !in host && (port.Some? ==> port.value <= 0xFFFF)
    requires path != [] && path[0] == '/'
    ensures var t := Split("http://" + (Authority(host, port) + path));
            && t.Some? && t.value.path == path
            && (t.value.host == host <==> port.Some? || ':' !in host)
            && (port.Some? || ':' !in host ==> t.value.port == match port case Some(p) => p case None => 80)
  {
    if port.Some? {
      var digits := Print(port.value);
      assert host + ":" + digits == host + (":" + digits) && (":" + digits)[1..] == digits;
      ParseUndoesPrint(port.value);
      SplitsAt(host, ":" + digits, path);
    } else if ':' !in host {
      assert host + "" == host;
      SplitsAt(host, "", path);
    } else {
      var k := FindLast(host, ':').value;
      assert host == host[..k] + host[k..] && host[k..][1..] == host[k + 1..];
      SplitsAt(host[..k], host[k..], path);
    }
  }

  /**
   The check of `http://host[:port]` with any number of trailing slashes goes to that host
   and port (80 if absent) and asks for the configured path, `/name` or `name`, with one
   leading slash ensured, if and only if a port is given or the host contains no colon: a
   bare IPv6 address loses its last group to the port.
   */
  lemma HealthCheckReachesBackend(host: string, port: Option<nat>, slashes: nat, name: string)
    requires host != [] && '/' !in host && (port.Some? ==> port.value <= 0xFFFF)
    ensures var base := "http://" + Authority(host, port) + Slashes(slashes);
            var target := Target(host, match port case Some(p) => p case None => 80, "/" + name);
            && (Split(CheckUrl(base, "/" + name)) == Some(target) <==> port.Some? || ':' !in host)
            && (name == [] || name[0] != '/' ==>
                  (Split(CheckUrl(base, name)) == Some(target) <==> port.Some? || ':' !in host))
  {
    CheckUrlOf(host, port, slashes, name);
    SplitOf(host, port, "/" + name);
  }

  /** Whatever the host, it is the configured path that is asked for. */
  lemma ConfiguredPathIsRequested(host: string, port: Option<nat>, slashes: nat, name: string)
    requires host != [] && '/' !in host && (port.Some? ==> port.value <= 0xFFFF)
    ensures var base := "http://" + Authority(host, port) + Slashes(slashes);
            && Split(CheckUrl(base, "/" + name)).Some? && Split(CheckUrl(base, "/" + name)).value.path == "/" + name
            && (name == [] || name[0] != '/' ==>
                  Split(CheckUrl(base, name)).Some? && Split(CheckUrl(base, name)).value.path == "/" + name)
  {
    CheckUrlOf(host, port, slashes, name);
    SplitOf(host, port, "/" + name);
  }

  ghost predicate AllSlashes(s: string) {
    forall i | 0 <= i < |s| :: s[i] == '/'
  }

  lemma {:induction false} TrimKeepsRest(s: string)
    ensures var t := TrimEndSlashes(s); t <= s && AllSlashes(s[|t|..]) && (t != [] ==> t[|t| - 1] != '/')
  {
    if s != [] && s[|s| - 1] == '/' {
      TrimKeepsRest(s[..|s| - 1]);
    }
  }

  lemma SchemeOf(t: string, w: string)
    requires w != [] && w[0] == '/' && (t != [] ==> t[|t| - 1] != '/')
    ensures "http://" <= t + w <==> "http://" <= t || (t == "http:" && "//" <= w)
  {
    var u, scheme := t + w, "http://";
    if |t| >= 7 {
      assert u[..7] == t[..7];
    } else {
      assert u[|t|] == '/';
      assert scheme <= u ==> scheme[|t|] == u[|t|] && forall i | 0 <= i < |t| :: t[i] == scheme[i];
      if t == "http:" {
        assert u[..5] == t && u[5..] == w;
      }
    }
  }

  lemma TrimmedScheme(s: string)
    ensures TrimEndSlashes(s) == "http:" <==> "http:" <= s && AllSlashes(s[5..])
    ensures "http://" <= TrimEndSlashes(s) <==> "http:" <= s && !AllSlashes(s[5..]) && "//" <= s[5..]
  {
    var t, scheme := TrimEndSlashes(s), "http:";
    TrimKeepsRest(s);
    hide TrimEndSlashes;
    assert forall i | |t| <= i < |s| :: s[i] == s[|t|..][i - |t|] == '/';
    if scheme <= s {
      assert s[4] == scheme[4] && |t| >= 5 && t[..5] == s[..5] == scheme;
      assert forall i | 5 <= i < |s| :: s[i] == s[5..][i - 5];
      assert |t| > 5 ==> s[|t| - 1] != '/';
    }
  }

  /**
   Which backends are checked at all: those whose URL starts with `http://`. (A URL that is
   `http:` and slashes only loses them all; it is checked iff the path brings two of its own.)
   */
  lemma CheckedIff(backendUrl: string, path: string)
    ensures Split(CheckUrl(backendUrl, path)).Some?
       <==> "http:" <= backendUrl && if AllSlashes(backendUrl[5..]) then "//" <= path else "//" <= backendUrl[5..]
  {
    TrimKeepsRest(backendUrl);
    TrimmedScheme(backendUrl);
    SchemeOf(TrimEndSlashes(backendUrl), WithSlash(path));
    hide TrimEndSlashes, AllSlashes;
    assert WithSlash(path) == path || WithSlash(path)[1..] == path;
  }
}
