/** apps/client/staging.cpp: the JSON manifest of a staged runtime, printed and parsed. A text stands
    for a string of bytes. */
module StagingManifest {
  import opened Characters
  import opened Options

  const MAXIMUM_STRING := 32 * 1024

  // ----- strings ----------------------------------------------------------------------------

  /** The escape letter of a byte that has a short one. */
  function ShortEscape(c: char): Option<char> {
    if c == '\\' then Some('\\')
    else if c == '"' then Some('"')
    else if c == 8 as char then Some('b')
    else if c == 12 as char then Some('f')
    else if c == '\n' then Some('n')
    else if c == '\r' then Some('r')
    else if c == '\t' then Some('t')
    else None
  }

  predicate IsControl(c: char) { c < ' ' }

  function EscapeByte(c: char): Text {
    if ShortEscape(c).Some? then ['\\', ShortEscape(c).value]
    else if IsControl(c) then ['\\', 'u', '0', '0', HexDigit(c as int / 16 % 16, 'a'), HexDigit(c as int % 16, 'a')]
    else [c]
  }

  /** json_escape. */
  function Escape(s: Text): Text {
    if s == [] then [] else EscapeByte(s[0]) + Escape(s[1..])
  }

  function Unescape(c: char): Option<char> {
    if c == '"' || c == '\\' || c == '/' then Some(c)
    else if c == 'b' then Some(8 as char)
    else if c == 'f' then Some(12 as char)
    else if c == 'n' then Some('\n')
    else if c == 'r' then Some('\r')
    else if c == 't' then Some('\t')
    else None
  }

  /** A value read from the front of the input, and the rest of it. */
  datatype Read<+T> = Read(value: T, rest: Text) | Failed

  /** The inside of a string, `read` being what came before; the closing quote is consumed. */
  function ParseBody(s: Text, read: Text): (r: Read<Text>)
    ensures r.Read? ==> |r.rest| < |s|
    decreases |s|, 0
  {
    if s == [] then Failed
    else if s[0] == '"' then Read(read, s[1..])
    else if IsControl(s[0]) then Failed
    else if s[0] != '\\' then ParseMore(s[0], s[1..], read)
    else if |s| < 2 || Unescape(s[1]).None? then Failed
    else ParseMore(Unescape(s[1]).value, s[2..], read)
  }

  function ParseMore(c: char, s: Text, read: Text): (r: Read<Text>)
    ensures r.Read? ==> |r.rest| < |s|
    decreases |s|, 1
  {
    if |read| + 1 > MAXIMUM_STRING then Failed else ParseBody(s, read + [c])
  }

  function ParseString(s: Text): (r: Read<Text>)
    ensures r.Read? ==> |r.rest| + 1 < |s|
  {
    if s == [] || s[0] != '"' then Failed else ParseBody(s[1..], [])
  }

  /** What the parser can read back: every control byte has a short escape. */
  predicate Escapable(s: Text) { forall i :: 0 <= i < |s| ==> !IsControl(s[i]) || ShortEscape(s[i]).Some? }

  lemma EscapableTail(s: Text)
    requires s != []
    ensures Escapable(s) <==> (!IsControl(s[0]) || ShortEscape(s[0]).Some?) && Escapable(s[1..])
  {
    if Escapable(s[1..]) {
      forall i | 0 < i < |s|
        ensures !IsControl(s[i]) || ShortEscape(s[i]).Some?
      {
        assert s[i] == s[1..][i - 1];
      }
    }
  }

  lemma UnescapeShort(c: char)
    requires ShortEscape(c).Some?
    ensures Unescape(ShortEscape(c).value) == Some(c)
  {
  }

  lemma BodyByte(c: char, tail: Text, read: Text)
    ensures ParseBody(EscapeByte(c) + tail, read)
            == if IsControl(c) && ShortEscape(c).None? then Failed else ParseMore(c, tail, read)
  {
    var s := EscapeByte(c) + tail;
    if ShortEscape(c).Some? {
      UnescapeShort(c);
      assert s[2..] == tail;
    } else if !IsControl(c) {
      assert s[1..] == tail;
    }
  }

  lemma {:induction false} BodyRoundTrip(v: Text, tail: Text, read: Text)
    requires |read| <= MAXIMUM_STRING
    ensures ParseBody(Escape(v) + (['"'] + tail), read)
            == if Escapable(v) && |read| + |v| <= MAXIMUM_STRING then Read(read + v, tail) else Failed
    decreases |v|
  {
    var closing := ['"'] + tail;
    if v == [] {
      assert Escape(v) + closing == closing && closing[1..] == tail && read + v == read;
    } else {
      var c, inner := v[0], Escape(v[1..]) + closing;
      assert Escape(v) + closing == EscapeByte(c) + inner;
      BodyByte(c, inner, read);
      EscapableTail(v);
      if |read| + 1 <= MAXIMUM_STRING {
        BodyRoundTrip(v[1..], tail, read + [c]);
        assert read + [c] + v[1..] == read + v;
      }
    }
  }

  function Quoted(v: Text): Text { ['"'] + Escape(v) + ['"'] }

  predicate Readable(v: Text) { Escapable(v) && |v| <= MAXIMUM_STRING }

  /** A printed string is read back exactly when every control byte in it has a short escape and it
      holds at most 32 KiB; otherwise it is refused. */
  lemma StringRoundTrip(v: Text, tail: Text)
    ensures ParseString(Quoted(v) + tail) == if Readable(v) then Read(v, tail) else Failed
  {
    var s := Quoted(v) + tail;
    assert s[1..] == Escape(v) + (['"'] + tail);
    BodyRoundTrip(v, tail, []);
    assert [] + v == v;
  }

  // ----- the object -------------------------------------------------------------------------

  const MAXIMUM_U32 := 0xFFFF_FFFF

  function SkipSpace(s: Text): (r: Text)
    ensures |r| <= |s| && (r != [] ==> !IsSpace(r[0]))
  {
    if s != [] && IsSpace(s[0]) then SkipSpace(s[1..]) else s
  }

  function ParseDigits(s: Text, value: nat): (r: Read<nat>)
    ensures r.Read? ==> |r.rest| <= |s|
  {
    if s == [] || !IsDigit(s[0]) then Read(value, s)
    else
      var digit := s[0] as int - '0' as int;
      if value > (MAXIMUM_U32 - digit) / 10 then Failed else ParseDigits(s[1..], value * 10 + digit)
  }

  function ParseNumber(s: Text): (r: Read<nat>)
    ensures r.Read? ==> |r.rest| <= |s|
  {
    if s == [] || !IsDigit(s[0]) then Failed else ParseDigits(s, 0)
  }

  /** The text fields, and the schema. */
  datatype Name = Schema | Profile | Instance | Hash | Source | SavePolicy

  function NameText(n: Name): Text {
    match n
    case Schema => "schema"
    case Profile => "profile"
    case Instance => "instance"
    case Hash => "king_sha256"
    case Source => "source"
    case SavePolicy => "save_policy"
  }

  function NameOf(key: Text): Option<Name> {
    if key == "schema" then Some(Schema)
    else if key == "profile" then Some(Profile)
    else if key == "instance" then Some(Instance)
    else if key == "king_sha256" then Some(Hash)
    else if key == "source" then Some(Source)
    else if key == "save_policy" then Some(SavePolicy)
    else None
  }

  datatype Manifest = Manifest(schema: Option<nat>, profile: Option<Text>, instance: Option<Text>, hash: Option<Text>,
                               source: Option<Text>, savePolicy: Option<Text>)

  const EMPTY := Manifest(None, None, None, None, None, None)

  predicate Present(m: Manifest, n: Name) {
    match n
    case Schema => m.schema.Some?
    case Profile => m.profile.Some?
    case Instance => m.instance.Some?
    case Hash => m.hash.Some?
    case Source => m.source.Some?
    case SavePolicy => m.savePolicy.Some?
  }

  function Stored(m: Manifest, n: Name, value: Text): Manifest {
    match n
    case Schema => m
    case Profile => m.(profile := Some(value))
    case Instance => m.(instance := Some(value))
    case Hash => m.(hash := Some(value))
    case Source => m.(source := Some(value))
    case SavePolicy => m.(savePolicy := Some(value))
  }

  /** The value of a field whose key and colon were read. */
  function ParseValue(n: Name, s: Text, m: Manifest): (r: Read<Manifest>)
    ensures r.Read? ==> |r.rest| <= |s|
  {
    if Present(m, n) then Failed
    else if n.Schema? then
      match ParseNumber(s)
      case Failed => Failed
      case Read(number, rest) => Read(m.(schema := Some(number)), rest)
    else
      match ParseString(s)
      case Failed => Failed
      case Read(value, rest) => Read(Stored(m, n, value), rest)
  }

  function ParseMember(s: Text, m: Manifest): (r: Read<Manifest>)
    ensures r.Read? ==> |r.rest| < |s|
  {
    match ParseString(s)
    case Failed => Failed
    case Read(key, rest) =>
      var colon := SkipSpace(rest);
      if colon == [] || colon[0] != ':' || NameOf(key).None? then Failed
      else ParseValue(NameOf(key).value, SkipSpace(colon[1..]), m)
  }

  function ParseMembers(s: Text, m: Manifest): Read<Manifest>
    decreases |s|
  {
    match ParseMember(s, m)
    case Failed => Failed
    case Read(next, rest) =>
      var t := SkipSpace(rest);
      if t == [] then Failed
      else if t[0] == '}' then Read(next, t[1..])
      else if t[0] == ',' then ParseMembers(SkipSpace(t[1..]), next)
      else Failed
  }

  predicate Complete(m: Manifest) { forall n: Name :: n != Instance ==> Present(m, n) }

  /** The object behind its opening brace and the space after it. */
  function ParseObject(t: Text): Option<Manifest> {
    if t != [] && t[0] == '}' then None
    else
      match ParseMembers(t, EMPTY)
      case Failed => None
      case Read(m, rest) => if SkipSpace(rest) == [] && Complete(m) then Some(m) else None
  }

  function Parse(input: Text): Option<Manifest> {
    var s := SkipSpace(input);
    if s == [] || s[0] != '{' then None else ParseObject(SkipSpace(s[1..]))
  }

  // ----- the printed manifest ---------------------------------------------------------------

  /** Written between quotes as it stands. */
  function Raw(v: Text): Text { ['"'] + v + ['"'] }

  function Member(n: Name, value: Text): Text { Raw(NameText(n)) + (": " + value) }

  const SEPARATOR := ",\n  "

  // The printed members, each followed by the later ones.

  function FromSavePolicy(): Text { Member(SavePolicy, Raw("excluded") + "\n}\n") }

  function FromSource(source: Text): Text { Member(Source, Quoted(source) + (SEPARATOR + FromSavePolicy())) }

  function FromHash(hash: Text, source: Text): Text { Member(Hash, Raw(hash) + (SEPARATOR + FromSource(source))) }

  function FromInstance(instance: Text, hash: Text, source: Text): Text {
    Member(Instance, Quoted(instance) + (SEPARATOR + FromHash(hash, source)))
  }

  function FromProfile(profile: Text, instance: Text, hash: Text, source: Text): Text {
    Member(Profile, Raw(profile) + (SEPARATOR + FromInstance(instance, hash, source)))
  }

  /** The text stage_game writes: schema 2, and the save policy "excluded". */
  function Printed(profile: Text, instance: Text, hash: Text, source: Text): Text {
    "{\n  " + (Member(Schema, "2" + (SEPARATOR + FromProfile(profile, instance, hash, source))))
  }

  predicate Plain(v: Text) { forall i :: 0 <= i < |v| ==> !IsControl(v[i]) && ShortEscape(v[i]).None? }

  lemma {:induction false} PlainEscape(v: Text)
    requires Plain(v)
    ensures Escape(v) == v && Escapable(v)
  {
    if v != [] {
      PlainEscape(v[1..]);
      assert [v[0]] + v[1..] == v;
    }
  }

  lemma RawReads(v: Text, tail: Text)
    requires Plain(v) && |v| <= MAXIMUM_STRING
    ensures ParseString(Raw(v) + tail) == Read(v, tail)
  {
    PlainEscape(v);
    StringRoundTrip(v, tail);
  }

  lemma NamesArePlain(n: Name)
    ensures Plain(NameText(n)) && |NameText(n)| < 20 && NameOf(NameText(n)) == Some(n)
  {
  }

  /** Nothing to skip before the tail. */
  predicate Starts(tail: Text) { tail != [] && !IsSpace(tail[0]) }

  lemma MemberStarts(n: Name, value: Text)
    ensures Starts(Member(n, value)) && Member(n, value)[0] == '"'
  {
  }

  lemma SkipOne(tail: Text)
    requires Starts(tail)
    ensures SkipSpace(" " + tail) == tail && SkipSpace(tail) == tail
  {
    assert (" " + tail)[1..] == tail;
  }

  lemma MemberReads(n: Name, value: Text, m: Manifest)
    requires Starts(value)
    ensures ParseMember(Member(n, value), m) == ParseValue(n, value, m)
  {
    NamesArePlain(n);
    RawReads(NameText(n), ": " + value);
    SkipOne(value);
    assert (": " + value)[1..] == " " + value;
  }

  lemma IndentSkips(tail: Text)
    requires Starts(tail)
    ensures SkipSpace("\n  " + tail) == tail
  {
    var a, b := "\n  " + tail, "  " + tail;
    assert a[1..] == b && b[1..] == " " + tail;
    SkipOne(tail);
  }

  lemma SeparatorSkips(n: Name, value: Text)
    ensures SkipSpace(SEPARATOR + Member(n, value)) == SEPARATOR + Member(n, value)
    ensures SkipSpace((SEPARATOR + Member(n, value))[1..]) == Member(n, value)
  {
    MemberStarts(n, value);
    assert (SEPARATOR + Member(n, value))[1..] == "\n  " + Member(n, value);
    IndentSkips(Member(n, value));
  }

  lemma MembersStep(n: Name, x: Text, m: Manifest, m': Manifest, n2: Name, y: Text)
    requires Starts(x) && ParseValue(n, x, m) == Read(m', SEPARATOR + Member(n2, y))
    ensures ParseMembers(Member(n, x), m) == ParseMembers(Member(n2, y), m')
  {
    MemberReads(n, x, m);
    SeparatorSkips(n2, y);
  }

  lemma MembersFail(n: Name, x: Text, m: Manifest)
    requires Starts(x) && ParseValue(n, x, m).Failed?
    ensures ParseMembers(Member(n, x), m).Failed?
  {
    MemberReads(n, x, m);
  }

  lemma MembersEnd(n: Name, x: Text, m: Manifest, m': Manifest)
    requires Starts(x) && ParseValue(n, x, m) == Read(m', "\n}\n")
    ensures ParseMembers(Member(n, x), m) == Read(m', "\n")
  {
    MemberReads(n, x, m);
    assert "\n}\n"[1..] == "}\n" && "}\n"[1..] == "\n";
  }

  lemma TextValue(n: Name, v: Text, tail: Text, m: Manifest)
    requires !n.Schema? && !Present(m, n)
    ensures Starts(Quoted(v) + tail)
    ensures ParseValue(n, Quoted(v) + tail, m) == if Readable(v) then Read(Stored(m, n, v), tail) else Failed
  {
    StringRoundTrip(v, tail);
  }

  lemma RawValue(n: Name, v: Text, tail: Text, m: Manifest)
    requires !n.Schema? && !Present(m, n) && Plain(v) && |v| <= MAXIMUM_STRING
    ensures Starts(Raw(v) + tail)
    ensures ParseValue(n, Raw(v) + tail, m) == Read(Stored(m, n, v), tail)
  {
    RawReads(v, tail);
  }

  lemma SchemaValue(tail: Text)
    requires tail != [] && !IsDigit(tail[0])
    ensures Starts("2" + tail) && ParseValue(Schema, "2" + tail, EMPTY) == Read(EMPTY.(schema := Some(2)), tail)
  {
    assert ("2" + tail)[1..] == tail;
    assert ParseDigits("2" + tail, 0) == ParseDigits(tail, 2);
  }

  lemma EndReads(m: Manifest)
    requires !Present(m, SavePolicy)
    ensures ParseMembers(FromSavePolicy(), m) == Read(m.(savePolicy := Some("excluded")), "\n")
  {
    assert Plain("excluded");
    RawValue(SavePolicy, "excluded", "\n}\n", m);
    MembersEnd(SavePolicy, Raw("excluded") + "\n}\n", m, m.(savePolicy := Some("excluded")));
  }

  lemma SourceReads(source: Text, m: Manifest)
    requires !Present(m, Source) && !Present(m, SavePolicy)
    ensures ParseMembers(FromSource(source), m)
            == if Readable(source) then Read(m.(source := Some(source), savePolicy := Some("excluded")), "\n")
               else Failed
  {
    var tail := SEPARATOR + FromSavePolicy();
    TextValue(Source, source, tail, m);
    if Readable(source) {
      MembersStep(Source, Quoted(source) + tail, m, m.(source := Some(source)), SavePolicy, Raw("excluded") + "\n}\n");
      EndReads(m.(source := Some(source)));
    } else {
      MembersFail(Source, Quoted(source) + tail, m);
    }
  }

  lemma HashReads(hash: Text, source: Text, m: Manifest)
    requires !Present(m, Hash) && Plain(hash) && |hash| <= MAXIMUM_STRING
    ensures ParseMembers(FromHash(hash, source), m) == ParseMembers(FromSource(source), m.(hash := Some(hash)))
  {
    var tail := SEPARATOR + FromSource(source);
    RawValue(Hash, hash, tail, m);
    MembersStep(Hash, Raw(hash) + tail, m, m.(hash := Some(hash)), Source,
                Quoted(source) + (SEPARATOR + FromSavePolicy()));
  }

  lemma InstanceReads(instance: Text, hash: Text, source: Text, m: Manifest)
    requires !Present(m, Instance)
    ensures ParseMembers(FromInstance(instance, hash, source), m)
            == if Readable(instance) then ParseMembers(FromHash(hash, source), m.(instance := Some(instance)))
               else Failed
  {
    var tail := SEPARATOR + FromHash(hash, source);
    TextValue(Instance, instance, tail, m);
    if Readable(instance) {
      MembersStep(Instance, Quoted(instance) + tail, m, m.(instance := Some(instance)), Hash,
                  Raw(hash) + (SEPARATOR + FromSource(source)));
    } else {
      MembersFail(Instance, Quoted(instance) + tail, m);
    }
  }

  lemma ProfileReads(profile: Text, instance: Text, hash: Text, source: Text, m: Manifest)
    requires !Present(m, Profile) && Plain(profile) && |profile| <= MAXIMUM_STRING
    ensures ParseMembers(FromProfile(profile, instance, hash, source), m)
            == ParseMembers(FromInstance(instance, hash, source), m.(profile := Some(profile)))
  {
    var tail := SEPARATOR + FromInstance(instance, hash, source);
    RawValue(Profile, profile, tail, m);
    MembersStep(Profile, Raw(profile) + tail, m, m.(profile := Some(profile)), Instance,
                Quoted(instance) + (SEPARATOR + FromHash(hash, source)));
  }

  lemma SchemaReads(profile: Text, instance: Text, hash: Text, source: Text)
    ensures ParseMembers(Member(Schema, "2" + (SEPARATOR + FromProfile(profile, instance, hash, source))), EMPTY)
            == ParseMembers(FromProfile(profile, instance, hash, source), EMPTY.(schema := Some(2)))
  {
    var tail := SEPARATOR + FromProfile(profile, instance, hash, source);
    SchemaValue(tail);
    MembersStep(Schema, "2" + tail, EMPTY, EMPTY.(schema := Some(2)), Profile,
                Raw(profile) + (SEPARATOR + FromInstance(instance, hash, source)));
  }

  /** Opening brace, line break and indentation. */
  lemma OpeningReads(n: Name, value: Text)
    ensures Parse("{\n  " + Member(n, value)) == ParseObject(Member(n, value))
  {
    var first := Member(n, value);
    MemberStarts(n, value);
    assert ("{\n  " + first)[1..] == "\n  " + first;
    IndentSkips(first);
  }

  function Expected(profile: Text, instance: Text, hash: Text, source: Text): Manifest {
    Manifest(Some(2), Some(profile), Some(instance), Some(hash), Some(source), Some("excluded"))
  }

  lemma MembersRead(profile: Text, instance: Text, hash: Text, source: Text)
    requires Plain(profile) && |profile| <= MAXIMUM_STRING && Plain(hash) && |hash| <= MAXIMUM_STRING
    ensures ParseMembers(Member(Schema, "2" + (SEPARATOR + FromProfile(profile, instance, hash, source))), EMPTY)
            == if Readable(instance) && Readable(source) then Read(Expected(profile, instance, hash, source), "\n")
               else Failed
  {
    var m1 := EMPTY.(schema := Some(2));
    var m2 := m1.(profile := Some(profile));
    var m3 := m2.(instance := Some(instance));
    SchemaReads(profile, instance, hash, source);
    ProfileReads(profile, instance, hash, source, m1);
    InstanceReads(instance, hash, source, m2);
    HashReads(hash, source, m3);
    SourceReads(source, m3.(hash := Some(hash)));
  }

  /** Parsing the written manifest gives back every field exactly when the instance and the source
      are readable; otherwise the runtime's own manifest is refused. */
  lemma ManifestRoundTrip(profile: Text, instance: Text, hash: Text, source: Text)
    requires Plain(profile) && |profile| <= MAXIMUM_STRING && Plain(hash) && |hash| <= MAXIMUM_STRING
    ensures Parse(Printed(profile, instance, hash, source))
            == if Readable(instance) && Readable(source) then Some(Expected(profile, instance, hash, source)) else None
  {
    OpeningReads(Schema, "2" + (SEPARATOR + FromProfile(profile, instance, hash, source)));
    MembersRead(profile, instance, hash, source);
    assert SkipSpace("\n") == [];
  }

  /** `n` characters of three UTF-8 bytes each. */
  function Wide(n: nat): (s: Text)
    ensures |s| == 3 * n && forall i :: 0 <= i < |s| ==> s[i] >= ' '
  {
    if n == 0 then [] else Wide(n - 1) + [0xE2 as char, 0x82 as char, 0xAC as char]
  }

  const COMPONENT := 255

  /** A directory `n` levels deep, every name of the longest length Windows allows. */
  function Deep(n: nat): (s: Text)
    ensures |s| == n * (3 * COMPONENT + 1) && forall i :: 0 <= i < |s| ==> s[i] >= ' '
  {
    if n == 0 then [] else Deep(n - 1) + "\\" + Wide(COMPONENT)
  }

  lemma DeepReadable(n: nat, source: Text)
    requires source == "C:" + Deep(n)
    ensures Readable(source) <==> n < 43
  {
    assert forall i :: 0 <= i < |source| ==> source[i] >= ' ';
    assert |source| == 2 + n * 766;
  }

  /** The length limit is within reach, because it counts bytes: a path of 43 such names, some 11,000
      characters where Windows allows 32,767, already has too many. A path of that length reaches the
      program only where long paths are enabled; it does not ask for them itself. */
  lemma DeepSourceIsRefused(profile: Text, instance: Text, hash: Text, n: nat, source: Text)
    requires Plain(profile) && |profile| <= MAXIMUM_STRING && Plain(hash) && |hash| <= MAXIMUM_STRING
             && Readable(instance)
    requires source == "C:" + Deep(n)
    ensures Parse(Printed(profile, instance, hash, source)).None? <==> n >= 43
  {
    DeepReadable(n, source);
    ManifestRoundTrip(profile, instance, hash, source);
  }

  // ----- the parser as the source runs it ---------------------------------------------------

  class ManifestParser {
    const input: Text
    var position: nat
    var manifest: Manifest

    ghost predicate Valid()
      reads this
    {
      position <= |input|
    }

    /** What is still to be read. */
    function Rest(): Text
      reads this
      requires Valid()
    {
      input[position..]
    }

    constructor (input: Text)
      ensures Valid() && this.input == input && Rest() == input && manifest == EMPTY
    {
      this.input, position, manifest := input, 0, EMPTY;
    }

    method SkipWhitespace()
      requires Valid()
      modifies this`position
      ensures Valid() && position >= old(position) && Rest() == SkipSpace(old(Rest()))
    {
      while position < |input| && IsSpace(input[position])
        invariant Valid() && position >= old(position) && SkipSpace(Rest()) == SkipSpace(old(Rest()))
        decreases |input| - position
      {
        assert Rest()[1..] == input[position + 1..];
        position := position + 1;
      }
    }

    method Consume(expected: char) returns (ok: bool)
      requires Valid()
      modifies this`position
      ensures Valid() && (ok <==> old(Rest()) != [] && old(Rest())[0] == expected)
      ensures Rest() == if ok then old(Rest())[1..] else old(Rest())
      ensures position == if ok then old(position) + 1 else old(position)
    {
      if position >= |input| || input[position] != expected {
        return false;
      }
      assert Rest()[1..] == input[position + 1..];
      position := position + 1;
      ok := true;
    }

    method ParseText() returns (ok: bool, output: Text)
      requires Valid()
      modifies this`position
      ensures Valid() && position >= old(position)
      ensures ParseString(old(Rest())) == if ok then Read(output, Rest()) else Failed
    {
      output := [];
      var quoted := Consume('"');
      if !quoted {
        return false, output;
      }
      while position < |input|
        invariant Valid() && position >= old(position) && ParseString(old(Rest())) == ParseBody(Rest(), output)
        decreases |input| - position
      {
        ghost var rest := Rest();
        assert rest[1..] == input[position + 1..];
        var c := input[position];
        position := position + 1;
        if c == '"' {
          return true, output;
        }
        if IsControl(c) {
          return false, output;
        }
        if c != '\\' {
          output := output + [c];
        } else {
          if position >= |input| {
            return false, output;
          }
          assert rest[2..] == input[position + 1..];
          var escaped := Unescape(input[position]);
          position := position + 1;
          if escaped.None? {
            return false, output;
          }
          output := output + [escaped.value];
        }
        if |output| > MAXIMUM_STRING {
          return false, output;
        }
      }
      ok := false;
    }

    method ParseU32() returns (ok: bool, value: nat)
      requires Valid()
      modifies this`position
      ensures Valid() && position >= old(position)
      ensures ParseNumber(old(Rest())) == if ok then Read(value, Rest()) else Failed
    {
      value := 0;
      if position >= |input| || !IsDigit(input[position]) {
        return false, value;
      }
      while position < |input| && IsDigit(input[position])
        invariant Valid() && position >= old(position) && ParseDigits(Rest(), value) == ParseDigits(old(Rest()), 0)
        decreases |input| - position
      {
        var digit := input[position] as int - '0' as int;
        if value > (MAXIMUM_U32 - digit) / 10 {
          return false, value;
        }
        assert Rest()[1..] == input[position + 1..];
        value := value * 10 + digit;
        position := position + 1;
      }
      ok := true;
    }

    method ParseField(n: Name) returns (ok: bool)
      requires Valid()
      modifies this
      ensures Valid() && position >= old(position)
      ensures ParseValue(n, old(Rest()), old(manifest)) == if ok then Read(manifest, Rest()) else Failed
    {
      if Present(manifest, n) {
        return false;
      }
      if n == Schema {
        var number;
        ok, number := ParseU32();
        if ok {
          manifest := manifest.(schema := Some(number));
        }
      } else {
        var value;
        ok, value := ParseText();
        if ok {
          manifest := Stored(manifest, n, value);
        }
      }
    }

    /** One key, colon and value. */
    method ParseEntry() returns (ok: bool)
      requires Valid()
      modifies this
      ensures Valid() && position >= old(position)
      ensures ParseMember(old(Rest()), old(manifest)) == if ok then Read(manifest, Rest()) else Failed
    {
      var key;
      ok, key := ParseText();
      if !ok {
        return;
      }
      SkipWhitespace();
      ok := Consume(':');
      if !ok {
        return;
      }
      SkipWhitespace();
      if NameOf(key).None? {
        return false;
      }
      ok := ParseField(NameOf(key).value);
    }

    /** The loop over the members, up to the closing brace. */
    method ParseEntries() returns (ok: bool)
      requires Valid()
      modifies this
      ensures Valid() && ParseMembers(old(Rest()), old(manifest)) == if ok then Read(manifest, Rest()) else Failed
    {
      while true
        invariant Valid() && ParseMembers(old(Rest()), old(manifest)) == ParseMembers(Rest(), manifest)
        decreases |input| - position
      {
        ghost var before := Rest();
        ok := ParseEntry();
        if !ok {
          return;
        }
        SkipWhitespace();
        var closed := Consume('}');
        if closed {
          return true;
        }
        ok := Consume(',');
        if !ok {
          return;
        }
        SkipWhitespace();
        assert |Rest()| < |before|;
      }
    }

    method ParseAll() returns (ok: bool)
      requires Valid() && position == 0 && manifest == EMPTY
      modifies this
      ensures Parse(input) == if ok then Some(manifest) else None
    {
      assert Rest() == input;
      SkipWhitespace();
      ok := Consume('{');
      if !ok {
        return;
      }
      SkipWhitespace();
      var empty := Consume('}');
      if empty {
        return false;
      }
      ok := ParseEntries();
      if !ok {
        return;
      }
      SkipWhitespace();
      ok := position == |input| && manifest.schema.Some? && manifest.profile.Some? && manifest.hash.Some?
            && manifest.source.Some? && manifest.savePolicy.Some?;
      assert ok ==> Complete(manifest);
      assert Complete(manifest) ==> Present(manifest, Schema) && Present(manifest, Profile) && Present(manifest, Hash)
                                    && Present(manifest, Source) && Present(manifest, SavePolicy);
    }
  }

  /** json_escape. */
  method JsonEscape(input: Text) returns (output: Text)
    ensures output == Escape(input)
  {
    output := [];
    for i := 0 to |input|
      invariant Escape(input) == output + Escape(input[i..])
    {
      assert input[i..][1..] == input[i + 1..];
      output := output + EscapeByte(input[i]);
    }
  }
}
