/** apps/launcher/config.cpp: server endpoints, host[:port]. */
module Endpoint {
  import opened Options
  import opened Characters
  import opened IniText

  const DEFAULT_PORT := 28020
  const MAXIMUM_HOST := 253
  const MAXIMUM_LABEL := 63

  /** First position of `c` at or after `from`; the length when there is none. */
  function IndexOf(s: Text, c: char, from: nat): (i: nat)
    requires from <= |s|
    ensures from <= i <= |s| && (i < |s| ==> s[i] == c) && forall j :: from <= j < i ==> s[j] != c
    decreases |s| - from
  {
    if from == |s| || s[from] == c then from else IndexOf(s, c, from + 1)
  }

  function Count(s: Text, c: char): nat {
    if s == [] then 0 else (if s[0] == c then 1 else 0) + Count(s[1..], c)
  }

  predicate IsOctet(part: Text) {
    var value := ParseUnsigned(part);
    value.Some? && value.value <= 255
  }

  predicate IsLabel(part: Text) {
    && part != [] && |part| <= MAXIMUM_LABEL && part[0] != '-' && part[|part| - 1] != '-'
    && forall c :: c in part ==> IsAlnum(c) || c == '-'
  }

  /** How many dot-separated parts follow `begin`, if they are all good. */
  function CountParts(good: Text -> bool, host: Text, begin: nat): Option<nat>
    requires begin <= |host|
    decreases |host| - begin
  {
    var end := IndexOf(host, '.', begin);
    if !good(host[begin..end]) then None
    else if end == |host| then Some(1)
    else
      var rest := CountParts(good, host, end + 1);
      if rest.None? then None else Some(rest.value + 1)
  }

  predicate ValidIpv4(host: Text) { CountParts(IsOctet, host, 0) == Some(4) }

  predicate ValidDnsName(host: Text) { CountParts(IsLabel, host, 0).Some? }

  predicate IsNumeric(host: Text) { forall c :: c in host ==> IsDigit(c) || c == '.' }

  predicate ValidHost(host: Text) {
    host != [] && |host| <= MAXIMUM_HOST && if IsNumeric(host) then ValidIpv4(host) else ValidDnsName(host)
  }

  /** The port behind the colon, if there is one. */
  function PortOf(v: Text): Option<nat> {
    var colon := IndexOf(v, ':', 0);
    if colon == |v| then Some(DEFAULT_PORT)
    else
      var port := ParseUnsigned(v[colon + 1..]);
      if port.Some? && 0 < port.value <= 65535 then port else None
  }

  function Written(host: Text, digits: Text): Text { host + [':'] + digits }

  function Normalize(value: Text): Option<Text> {
    var v := Trim(value);
    if v == [] || '[' in v || ']' in v || Count(v, ':') > 1 then None
    else if PortOf(v).None? || HostOf(v).None? then None
    else Some(Written(HostOf(v).value, Decimal(PortOf(v).value)))
  }

  /** What is before the colon, if it is a host. */
  function HostOf(v: Text): Option<Text> {
    var host := v[..IndexOf(v, ':', 0)];
    if ValidHost(host) then Some(host) else None
  }

  // ----- the loops --------------------------------------------------------------------------

  function Plus(n: nat, rest: Option<nat>): Option<nat> { if rest.None? then None else Some(n + rest.value) }

  lemma CountStep(good: Text -> bool, host: Text, begin: nat, end: nat, part: Text, n: nat)
    requires begin <= end <= |host| && end == IndexOf(host, '.', begin) && part == host[begin..end]
    ensures Plus(n, CountParts(good, host, begin))
            == if !good(part) then None else if end == |host| then Some(n + 1)
               else Plus(n + 1, CountParts(good, host, end + 1))
  {
  }

  method CheckIpv4(host: Text) returns (ok: bool)
    ensures ok <==> ValidIpv4(host)
  {
    var begin, parts := 0, 0;
    while true
      invariant begin <= |host| && CountParts(IsOctet, host, 0) == Plus(parts, CountParts(IsOctet, host, begin))
      decreases |host| - begin
    {
      var end := IndexOf(host, '.', begin);
      var part := host[begin..end];
      CountStep(IsOctet, host, begin, end, part, parts);
      if !IsOctet(part) {
        return false;
      }
      parts := parts + 1;
      if end == |host| {
        return parts == 4;
      }
      begin := end + 1;
    }
  }

  method CheckDnsName(host: Text) returns (ok: bool)
    ensures ok <==> ValidDnsName(host)
  {
    var begin := 0;
    while true
      invariant begin <= |host| && CountParts(IsLabel, host, 0).Some? == CountParts(IsLabel, host, begin).Some?
      decreases |host| - begin
    {
      var end := IndexOf(host, '.', begin);
      if !IsLabel(host[begin..end]) {
        return false;
      }
      if end == |host| {
        return true;
      }
      begin := end + 1;
    }
  }

  // ----- the form of a host -----------------------------------------------------------------

  function Joined(parts: seq<Text>): Text
    requires parts != []
  {
    if |parts| == 1 then parts[0] else parts[0] + (['.'] + Joined(parts[1..]))
  }

  predicate All(good: Text -> bool, parts: seq<Text>) { forall i :: 0 <= i < |parts| ==> good(parts[i]) }

  /** Good parts have no dots. */
  ghost predicate DotFree(good: Text -> bool) { forall part {:trigger good(part)} :: good(part) ==> '.' !in part }

  lemma JoinedCons(part: Text, rest: seq<Text>)
    requires rest != []
    ensures Joined([part] + rest) == part + (['.'] + Joined(rest))
  {
    assert ([part] + rest)[1..] == rest;
  }

  /** The text from `begin` on, cut at the dot at `end`. */
  lemma Cut(host: Text, begin: nat, end: nat)
    requires begin <= end < |host| && host[end] == '.'
    ensures host[begin..] == host[begin..end] + (['.'] + host[end + 1..])
  {
  }

  lemma CutRest(host: Text, begin: nat, end: nat, part: Text, rest: Text)
    requires begin <= |host| && end == begin + |part| && host[begin..] == part + (['.'] + rest)
    ensures end < |host| && host[begin..end] == part && host[end] == '.' && host[end + 1..] == rest
  {
    var tail := host[begin..];
    assert tail[..|part|] == part && tail[|part|] == '.' && tail[|part| + 1..] == rest;
    assert tail[|part| + 1..] == host[end + 1..];
  }

  /** A dot-free part in front is found again. */
  lemma FirstDot(host: Text, begin: nat, end: nat, part: Text)
    requires begin <= end < |host| && host[begin..end] == part && '.' !in part && host[end] == '.'
    ensures IndexOf(host, '.', begin) == end
  {
    assert forall j :: begin <= j < end ==> host[j] == part[j - begin] && part[j - begin] in part;
  }

  lemma LastPart(host: Text, begin: nat, part: Text)
    requires begin <= |host| && '.' !in part && host[begin..] == part
    ensures IndexOf(host, '.', begin) == |host| && host[begin..|host|] == part
  {
    assert forall j :: begin <= j < |host| ==> host[j] == part[j - begin] && part[j - begin] in part;
  }

  lemma {:induction false} PartsAreJoined(good: Text -> bool, host: Text, begin: nat) returns (parts: seq<Text>)
    requires begin <= |host| && CountParts(good, host, begin).Some?
    ensures parts != [] && |parts| == CountParts(good, host, begin).value && All(good, parts)
            && Joined(parts) == host[begin..]
    decreases |host| - begin
  {
    var end := IndexOf(host, '.', begin);
    var part := host[begin..end];
    parts := [part];
    if end < |host| {
      var rest := PartsAreJoined(good, host, end + 1);
      JoinedCons(part, rest);
      Cut(host, begin, end);
      parts := parts + rest;
    }
  }

  lemma CountLast(good: Text -> bool, host: Text, begin: nat, part: Text)
    requires begin <= |host| && IndexOf(host, '.', begin) == |host| && host[begin..|host|] == part && good(part)
    ensures CountParts(good, host, begin) == Some(1)
  {
  }

  lemma CountNext(good: Text -> bool, host: Text, begin: nat, end: nat, part: Text, n: nat)
    requires begin <= end < |host| && host[begin..end] == part && '.' !in part && host[end] == '.' && good(part)
    requires CountParts(good, host, end + 1) == Some(n)
    ensures CountParts(good, host, begin) == Some(n + 1)
  {
    FirstDot(host, begin, end, part);
  }

  lemma {:induction false} JoinedAreParts(good: Text -> bool, host: Text, begin: nat, parts: seq<Text>, n: nat)
    requires begin <= |host| && DotFree(good) && parts != [] && All(good, parts) && Joined(parts) == host[begin..]
             && n == |parts|
    ensures CountParts(good, host, begin) == Some(n)
    decreases n
  {
    var first := parts[0];
    assert good(first);
    if n == 1 {
      LastPart(host, begin, first);
      CountLast(good, host, begin, first);
    } else {
      var rest, end := parts[1..], begin + |first|;
      CutRest(host, begin, end, first, Joined(rest));
      JoinedAreParts(good, host, end + 1, rest, n - 1);
      CountNext(good, host, begin, end, first, n - 1);
    }
  }

  /** The parts of a host joined by dots again give the host, and no other parts do. */
  lemma CountOfJoined(good: Text -> bool, host: Text, n: nat)
    requires DotFree(good) && n > 0
    ensures CountParts(good, host, 0) == Some(n)
            <==> exists parts: seq<Text> :: |parts| == n && All(good, parts) && Joined(parts) == host
  {
    assert host[0..] == host;
    if CountParts(good, host, 0) == Some(n) {
      var parts := PartsAreJoined(good, host, 0);
    }
    forall parts: seq<Text> | |parts| == n && All(good, parts) && Joined(parts) == host
      ensures CountParts(good, host, 0) == Some(n)
    {
      JoinedAreParts(good, host, 0, parts, n);
    }
  }

  lemma GoodPartsAreDotFree()
    ensures DotFree(IsOctet) && DotFree(IsLabel)
  {
  }

  /** An address is four octets joined by dots. */
  lemma Ipv4Form(host: Text)
    ensures ValidIpv4(host) <==> exists parts: seq<Text> :: |parts| == 4 && All(IsOctet, parts) && Joined(parts) == host
  {
    GoodPartsAreDotFree();
    CountOfJoined(IsOctet, host, 4);
  }

  /** A name is labels joined by dots. */
  lemma DnsForm(host: Text)
    ensures ValidDnsName(host)
            <==> exists parts: seq<Text> :: parts != [] && All(IsLabel, parts) && Joined(parts) == host
  {
    GoodPartsAreDotFree();
    assert host[0..] == host;
    if ValidDnsName(host) {
      var parts := PartsAreJoined(IsLabel, host, 0);
    }
    forall parts: seq<Text> | parts != [] && All(IsLabel, parts) && Joined(parts) == host
      ensures ValidDnsName(host)
    {
      JoinedAreParts(IsLabel, host, 0, parts, |parts|);
    }
  }

  // ----- normal forms -----------------------------------------------------------------------

  predicate HostByte(c: char) { IsAlnum(c) || c == '-' || c == '.' }

  lemma LabelPart(host: Text, begin: nat, end: nat)
    requires begin <= end <= |host| && IsLabel(host[begin..end])
    ensures forall k :: begin <= k < end ==> HostByte(host[k])
  {
    forall k | begin <= k < end
      ensures HostByte(host[k])
    {
      assert host[k] == host[begin..end][k - begin] && host[begin..end][k - begin] in host[begin..end];
    }
  }

  lemma {:induction false} LabelBytes(host: Text, begin: nat)
    requires begin <= |host| && CountParts(IsLabel, host, begin).Some?
    ensures forall k :: begin <= k < |host| ==> HostByte(host[k])
    decreases |host| - begin
  {
    var end := IndexOf(host, '.', begin);
    LabelPart(host, begin, end);
    if end < |host| {
      LabelBytes(host, end + 1);
    }
  }

  lemma HostBytes(host: Text)
    requires ValidHost(host)
    ensures HostBytesOnly(host)
  {
    if !IsNumeric(host) {
      LabelBytes(host, 0);
    }
  }

  lemma {:induction false} CountAppend(a: Text, b: Text, c: char)
    ensures Count(a + b, c) == Count(a, c) + Count(b, c)
  {
    if a == [] {
      assert a + b == b;
    } else {
      assert (a + b)[1..] == a[1..] + b;
      CountAppend(a[1..], b, c);
    }
  }

  lemma {:induction false} CountAbsent(s: Text, c: char)
    requires c !in s
    ensures Count(s, c) == 0
  {
    if s != [] {
      assert s[0] in s;
      CountAbsent(s[1..], c);
    }
  }

  lemma IndexOfFirst(s: Text, c: char, i: nat)
    requires i < |s| && s[i] == c && forall j :: 0 <= j < i ==> s[j] != c
    ensures IndexOf(s, c, 0) == i
  {
  }

  predicate HostBytesOnly(s: Text) { forall k :: 0 <= k < |s| ==> HostByte(s[k]) }

  lemma WrittenTrims(host: Text, digits: Text)
    requires host != [] && digits != [] && HostBytesOnly(host) && HostBytesOnly(digits)
    ensures Trim(Written(host, digits)) == Written(host, digits)
    ensures '[' !in Written(host, digits) && ']' !in Written(host, digits)
  {
    TrimTrimmed(Written(host, digits));
  }

  lemma WrittenSplits(host: Text, digits: Text)
    requires HostBytesOnly(host) && HostBytesOnly(digits)
    ensures var n := Written(host, digits);
            IndexOf(n, ':', 0) == |host| && n[..|host|] == host && n[|host| + 1..] == digits && Count(n, ':') == 1
  {
    var n := Written(host, digits);
    assert ':' !in host && ':' !in digits;
    CountAppend(host + [':'], digits, ':');
    CountAppend(host, [':'], ':');
    CountAbsent(host, ':');
    CountAbsent(digits, ':');
    assert forall j :: 0 <= j < |host| ==> n[j] == host[j];
    IndexOfFirst(n, ':', |host|);
  }

  lemma DecimalBytes(port: nat)
    ensures HostBytesOnly(Decimal(port))
  {
    assert forall k :: 0 <= k < |Decimal(port)| ==> Decimal(port)[k] in Decimal(port);
  }

  lemma WrittenForm(host: Text, digits: Text, v: Text)
    requires ValidHost(host) && digits != [] && HostBytesOnly(digits) && v == Written(host, digits)
    ensures v != [] && Trim(v) == v && '[' !in v && ']' !in v && Count(v, ':') == 1
    ensures IndexOf(v, ':', 0) == |host| && v[..|host|] == host && v[|host| + 1..] == digits
  {
    HostBytes(host);
    WrittenTrims(host, digits);
    WrittenSplits(host, digits);
  }

  lemma SplitOf(v: Text, host: Text, digits: Text, port: nat)
    requires ValidHost(host) && 0 < port <= 65535 && ParseUnsigned(digits) == Some(port)
    requires |host| < |v| && IndexOf(v, ':', 0) == |host| && v[..|host|] == host && v[|host| + 1..] == digits
    ensures HostOf(v) == Some(host) && PortOf(v) == Some(port)
  {
  }

  lemma AnyDigits(v: Text, host: Text, digits: Text, port: nat)
    requires ValidHost(host) && 0 < port <= 65535 && v == Written(host, digits)
    requires digits != [] && HostBytesOnly(digits) && ParseUnsigned(digits) == Some(port)
    ensures Normalize(v) == Some(Written(host, Decimal(port)))
  {
    WrittenForm(host, digits, v);
    SplitOf(v, host, digits, port);
    NormalizeOf(v, host, port);
  }

  /** A host and a port written out are a normal form. */
  lemma Canonical(host: Text, port: nat)
    requires ValidHost(host) && 0 < port <= 65535
    ensures Normalize(Written(host, Decimal(port))) == Some(Written(host, Decimal(port)))
  {
    DecimalBytes(port);
    ParseDecimal(port);
    AnyDigits(Written(host, Decimal(port)), host, Decimal(port), port);
  }

  lemma NormalizeOf(v: Text, host: Text, port: nat)
    requires v != [] && Trim(v) == v && '[' !in v && ']' !in v && Count(v, ':') <= 1
    requires HostOf(v) == Some(host) && PortOf(v) == Some(port)
    ensures Normalize(v) == Some(Written(host, Decimal(port)))
  {
  }

  /** Normalising is idempotent, and a normal form is a valid host, a colon and a port in range. */
  lemma NormalizeIdempotent(value: Text) returns (host: Text, port: nat)
    requires Normalize(value).Some?
    ensures Normalize(Normalize(value).value) == Normalize(value)
    ensures ValidHost(host) && 0 < port <= 65535 && Normalize(value).value == Written(host, Decimal(port))
  {
    var v := Trim(value);
    host, port := v[..IndexOf(v, ':', 0)], PortOf(v).value;
    Canonical(host, port);
  }

  method CheckHost(host: Text) returns (ok: bool)
    ensures ok <==> ValidHost(host)
  {
    if host == [] || |host| > MAXIMUM_HOST {
      return false;
    }
    if IsNumeric(host) {
      ok := CheckIpv4(host);
    } else {
      ok := CheckDnsName(host);
    }
  }

  method NormalizeEndpoint(value: Text) returns (ok: bool, normalized: Text)
    ensures Normalize(value) == if ok then Some(normalized) else None
  {
    normalized := [];
    var v := Trim(value);
    if v == [] || '[' in v || ']' in v || Count(v, ':') > 1 {
      return false, normalized;
    }
    var host, port := v, DEFAULT_PORT;
    var colon := IndexOf(v, ':', 0);
    if colon < |v| {
      host := v[..colon];
      var parsed := ParseUnsigned(v[colon + 1..]);
      if parsed.None? || parsed.value == 0 || parsed.value > 65535 {
        return false, normalized;
      }
      port := parsed.value;
    }
    assert host == v[..colon] && PortOf(v) == Some(port);
    ok := CheckHost(host);
    if ok {
      normalized := Written(host, Decimal(port));
    }
  }
}
