/** apps/launcher/config.cpp: launcher.ini written and read back. */
module LauncherConfig {
  import opened Characters
  import opened Options
  import opened IniText
  import opened Endpoint

  const PAINTS := 4

  datatype Server = Server(endpoint: Text, token: Text)

  datatype Config = Config(steamPath: Text, playerName: Text, vehicle: Text, paint: nat, servers: seq<Server>)

  const BLANK := Server("", "")
  const DEFAULTS := Config("", "HT2MP", "Gazelle", 0, [])

  /** What the reader and the writer rely on: the shared checks of the protocol library (a name, a
      catalog vehicle, a paint), UTF-8, and the normal form of endpoints. */
  datatype Checks = Checks(identity: (Text, Text, nat) -> bool, utf8: Text -> bool, normalize: Text -> Option<Text>)

  ghost predicate PaintChecked(checks: Checks) {
    forall name: Text, vehicle: Text, paint: nat :: checks.identity(name, vehicle, paint) ==> paint < PAINTS
  }

  ghost predicate NormalizesEndpoints(checks: Checks) {
    forall endpoint {:trigger checks.normalize(endpoint)} :: checks.normalize(endpoint) == Normalize(endpoint)
  }

  predicate ValidIdentity(checks: Checks, c: Config) { checks.identity(c.playerName, c.vehicle, c.paint) }

  predicate IsHex(c: char) { Nibble(c) >= 0 }

  predicate ValidToken(t: Text) { t == "" || (|t| == 32 && forall i :: 0 <= i < |t| ==> IsHex(t[i])) }

  // ----- the saved servers ------------------------------------------------------------------

  function FindEndpoint(servers: seq<Server>, endpoint: Text): (i: nat)
    ensures i <= |servers| && (i < |servers| ==> servers[i].endpoint == endpoint)
    ensures forall j :: 0 <= j < i ==> servers[j].endpoint != endpoint
  {
    if servers == [] || servers[0].endpoint == endpoint then 0 else FindEndpoint(servers[1..], endpoint) + 1
  }

  function Upsert(servers: seq<Server>, s: Server): seq<Server> {
    var i := FindEndpoint(servers, s.endpoint);
    if i < |servers| then servers[i := s] else servers + [s]
  }

  function UpsertAll(servers: seq<Server>, more: seq<Server>): seq<Server>
    decreases more
  {
    if more == [] then servers else UpsertAll(Upsert(servers, more[0]), more[1..])
  }

  predicate Fresh(servers: seq<Server>, endpoint: Text) {
    forall i :: 0 <= i < |servers| ==> servers[i].endpoint != endpoint
  }

  predicate Distinct(servers: seq<Server>) {
    forall i, j :: 0 <= i < j < |servers| ==> servers[i].endpoint != servers[j].endpoint
  }

  /** Saved one after the other, the servers come back as they are exactly when their endpoints are
      distinct; otherwise there are fewer. */
  lemma {:induction false} UpsertAllKeeps(servers: seq<Server>, more: seq<Server>)
    requires Distinct(servers)
    ensures |UpsertAll(servers, more)| <= |servers| + |more|
    ensures UpsertAll(servers, more) == servers + more <==> Distinct(servers + more)
    ensures !Distinct(servers + more) ==> |UpsertAll(servers, more)| < |servers| + |more|
    decreases more
  {
    if more == [] {
      assert servers + more == servers;
    } else {
      var next := Upsert(servers, more[0]);
      if FindEndpoint(servers, more[0].endpoint) == |servers| {
        assert next + more[1..] == servers + more;
        UpsertAllKeeps(next, more[1..]);
      } else {
        var i := FindEndpoint(servers, more[0].endpoint);
        assert (servers + more)[i].endpoint == (servers + more)[|servers|].endpoint;
        UpsertAllKeeps(next, more[1..]);
      }
    }
  }

  // ----- reading ----------------------------------------------------------------------------

  datatype Reader = Reader(config: Config, section: Text, current: Server, inServer: bool)

  const START := Reader(DEFAULTS, "", BLANK, false)

  function Finish(checks: Checks, r: Reader): Option<Reader> {
    if !r.inServer then Some(r)
    else
      var endpoint := checks.normalize(r.current.endpoint);
      if endpoint.None? || !ValidToken(r.current.token) then None
      else
        var server := Server(endpoint.value, r.current.token);
        Some(r.(config := r.config.(servers := Upsert(r.config.servers, server)), current := BLANK, inServer := false))
  }

  predicate ServerSection(name: Text) { "server." <= name }

  /** A section header. */
  function Enter(checks: Checks, r: Reader, name: Text): Option<Reader> {
    var f := Finish(checks, r);
    if f.None? then None else Some(f.value.(section := name, inServer := ServerSection(name)))
  }

  /** A decoded `key=value` line. */
  function Assign(checks: Checks, r: Reader, key: Text, value: Text): Option<Reader> {
    if r.section == "launcher" then
      if key == "steam_path" then if checks.utf8(value) then Some(r.(config := r.config.(steamPath := value))) else None
      else if key == "player_name" then Some(r.(config := r.config.(playerName := value)))
      else if key == "vehicle" then Some(r.(config := r.config.(vehicle := value)))
      else if key == "paint" then
        var paint := ParseUnsigned(value);
        if paint.None? || paint.value >= PAINTS then None else Some(r.(config := r.config.(paint := paint.value)))
      else Some(r)
    else if r.inServer then
      if key == "endpoint" then Some(r.(current := r.current.(endpoint := value)))
      else if key == "token" then Some(r.(current := r.current.(token := value)))
      else Some(r)
    else Some(r)
  }

  function WithoutReturn(line: Text): Text {
    if line != [] && line[|line| - 1] == '\r' then line[..|line| - 1] else line
  }

  /** What a trimmed line is. */
  datatype Content = Skip | Header(name: Text) | KeyValue(key: Text, value: Text) | Malformed

  function Classify(clean: Text): Content {
    if clean == [] || clean[0] == ';' || clean[0] == '#' then Skip
    else if clean[0] == '[' && clean[|clean| - 1] == ']' then Header(clean[1..|clean| - 1])
    else
      var equals := IndexOf(clean, '=', 0);
      if equals == |clean| then Malformed
      else
        var value := Decode(clean[equals + 1..]);
        if value.None? then Malformed else KeyValue(Trim(clean[..equals]), value.value)
  }

  function Apply(checks: Checks, r: Reader, content: Content): Option<Reader> {
    match content
    case Skip => Some(r)
    case Header(name) => Enter(checks, r, name)
    case KeyValue(key, value) => if r.section == "" then None else Assign(checks, r, key, value)
    case Malformed => None
  }

  function LineContent(line: Text): Content { Classify(Trim(WithoutReturn(line))) }

  /** What the lines of a text are, in order. */
  datatype Script = Done | Then(first: Content, rest: Script)

  function ScriptOf(classify: Text -> Content, text: Text): Script
    decreases |text|
  {
    if text == [] then Done
    else
      var end := IndexOf(text, '\n', 0);
      Then(classify(text[..end]), ScriptOf(classify, if end == |text| then [] else text[end + 1..]))
  }

  function Contents(text: Text): Script { ScriptOf(LineContent, text) }

  function ApplyAll(checks: Checks, r: Reader, script: Script): Option<Reader>
    decreases script
  {
    match script
    case Done => Some(r)
    case Then(first, rest) =>
      var next := Apply(checks, r, first);
      if next.None? then None else ApplyAll(checks, next.value, rest)
  }

  function Load(checks: Checks, text: Text): Option<Config> {
    var r := ApplyAll(checks, START, Contents(text));
    if r.None? || Finish(checks, r.value).None? then None
    else
      var config := Finish(checks, r.value).value.config;
      if ValidIdentity(checks, config) then Some(config) else None
  }

  // ----- writing ----------------------------------------------------------------------------

  function Line(content: Text): Text { content + "\n" }

  function Field(key: Text, value: Text): Text { key + "=" + Encode(value) }

  function ServerName(index: nat): Text { "server." + Decimal(index) }

  function HeaderLine(name: Text): Text { "[" + name + "]" }

  function ServerText(s: Server, index: nat, rest: Text): Text {
    Line("") + (Line(HeaderLine(ServerName(index))) +
                (Line(Field("endpoint", s.endpoint)) + (Line(Field("token", s.token)) + rest)))
  }

  function ServersText(servers: seq<Server>, index: nat): Text {
    if servers == [] then "" else ServerText(servers[0], index, ServersText(servers[1..], index + 1))
  }

  function FieldsText(c: Config, rest: Text): Text {
    Line(Field("steam_path", c.steamPath)) +
    (Line(Field("player_name", c.playerName)) +
     (Line(Field("vehicle", c.vehicle)) + (Line("paint=" + Decimal(c.paint)) + rest)))
  }

  function LauncherText(c: Config, rest: Text): Text { Line(HeaderLine("launcher")) + FieldsText(c, rest) }

  function NormalizedServers(checks: Checks, servers: seq<Server>): (r: Option<seq<Server>>)
    ensures r.Some? ==> |r.value| == |servers|
  {
    if servers == [] then Some([])
    else
      var endpoint, rest := checks.normalize(servers[0].endpoint), NormalizedServers(checks, servers[1..]);
      if endpoint.None? || !ValidToken(servers[0].token) || rest.None? then None
      else Some([Server(endpoint.value, servers[0].token)] + rest.value)
  }

  function Save(checks: Checks, c: Config): Option<Text> {
    if !ValidIdentity(checks, c) || NormalizedServers(checks, c.servers).None? then None
    else Some(LauncherText(c, ServersText(NormalizedServers(checks, c.servers).value, 0)))
  }

  // ----- a saved line read back -------------------------------------------------------------

  /** A key of the file: letters and underscores. */
  predicate IsKey(key: Text) { key != [] && forall i :: 0 <= i < |key| ==> 'a' <= key[i] <= 'z' || key[i] == '_' }

  lemma FieldTrims(key: Text, value: Text)
    requires IsKey(key)
    ensures Trim(WithoutReturn(Field(key, value))) == key + "=" + Encode(Unspaced(value))
  {
    var line := Field(key, value);
    EncodePrintable(value);
    assert line[|line| - 1] != '\r';
    assert TrimStart(line) == line;
    TrimEncoded(key + "=", value);
  }

  lemma FieldNoNewline(key: Text, value: Text)
    requires IsKey(key)
    ensures '\n' !in Field(key, value)
  {
    EncodePrintable(value);
  }

  lemma CleanField(clean: Text, key: Text, encoded: Text, value: Text)
    requires IsKey(key) && Decode(encoded) == Some(value)
    requires |key| < |clean| && clean[..|key|] == key && clean[|key|] == '=' && clean[|key| + 1..] == encoded
    ensures Classify(clean) == KeyValue(key, value)
  {
    KeyEnds(clean, key);
    TrimTrimmed(key);
  }

  lemma KeyEnds(clean: Text, key: Text)
    requires IsKey(key) && |key| < |clean| && clean[..|key|] == key && clean[|key|] == '='
    ensures IndexOf(clean, '=', 0) == |key| && clean[0] == key[0]
  {
    assert forall i :: 0 <= i < |key| ==> clean[i] == key[i];
    IndexOfFirst(clean, '=', |key|);
  }

  lemma FieldReads(key: Text, value: Text)
    requires IsKey(key) && IsBytes(value)
    ensures Classify(Trim(WithoutReturn(Field(key, value)))) == KeyValue(key, Unspaced(value))
  {
    FieldTrims(key, value);
    DecodeEncode(Unspaced(value));
    CleanField(key + "=" + Encode(Unspaced(value)), key, Encode(Unspaced(value)), Unspaced(value));
  }

  lemma CleanHeader(line: Text, name: Text)
    requires |line| == |name| + 2 && line[0] == '[' && line[|line| - 1] == ']' && line[1..|line| - 1] == name
    ensures Classify(line) == Header(name)
  {
  }

  lemma HeaderReads(name: Text)
    ensures Classify(Trim(WithoutReturn(HeaderLine(name)))) == Header(name)
  {
    var line := HeaderLine(name);
    assert WithoutReturn(line) == line;
    TrimTrimmed(line);
    CleanHeader(line, name);
  }

  lemma LineFirst(classify: Text -> Content, line: Text, rest: Text)
    requires '\n' !in line
    ensures ScriptOf(classify, Line(line) + rest) == Then(classify(line), ScriptOf(classify, rest))
  {
    var text := Line(line) + rest;
    IndexOfFirst(text, '\n', |line|);
    assert text[..|line|] == line && text[|line| + 1..] == rest;
  }

  lemma BlankIsSkipped()
    ensures LineContent("") == Skip
  {
  }

  // ----- the saved file as a list of contents -----------------------------------------------

  /** A value that trimming and escaping leave alone. */
  predicate WellEnding(value: Text) { IsBytes(value) && Unspaced(value) == value }

  /** A server as it is saved. */
  predicate IsNormal(checks: Checks, s: Server) {
    checks.normalize(s.endpoint) == Some(s.endpoint) && ValidToken(s.token) && WellEnding(s.endpoint)
  }

  predicate AllNormal(checks: Checks, servers: seq<Server>) {
    forall i :: 0 <= i < |servers| ==> IsNormal(checks, servers[i])
  }

  function ServerScript(s: Server, index: nat, rest: Script): Script {
    Then(Skip, Then(Header(ServerName(index)),
                    Then(KeyValue("endpoint", s.endpoint), Then(KeyValue("token", s.token), rest))))
  }

  function ServersScript(servers: seq<Server>, index: nat): Script {
    if servers == [] then Done else ServerScript(servers[0], index, ServersScript(servers[1..], index + 1))
  }

  lemma TokenValue(token: Text)
    requires ValidToken(token)
    ensures WellEnding(token)
  {
    UnspacedSame(token);
    assert token != "" ==> IsHex(token[|token| - 1]);
  }

  lemma EndpointValue(endpoint: Text)
    requires Normalize(endpoint) == Some(endpoint)
    ensures WellEnding(endpoint)
  {
    var host, port := NormalizeIdempotent(endpoint);
    HostBytes(host);
    DecimalBytes(port);
    WrittenEnds(host, Decimal(port));
  }

  lemma WrittenEnds(host: Text, digits: Text)
    requires HostBytesOnly(host) && HostBytesOnly(digits) && digits != []
    ensures WellEnding(Written(host, digits))
  {
    UnspacedSame(Written(host, digits));
  }

  lemma ServerNames(index: nat)
    ensures ServerSection(ServerName(index)) && ServerName(index) != "launcher" && ServerName(index) != ""
            && Printable(ServerName(index))
  {
    DecimalBytes(index);
    assert ServerName(index)[0] == 's';
  }

  /** A line is known to be this content, and is one line. */
  predicate Reads(classify: Text -> Content, line: Text, content: Content) {
    classify(line) == content && '\n' !in line
  }

  lemma TwoLines(classify: Text -> Content, a: Text, b: Text, x: Content, y: Content, rest: Text)
    requires Reads(classify, a, x) && Reads(classify, b, y)
    ensures ScriptOf(classify, Line(a) + (Line(b) + rest)) == Then(x, Then(y, ScriptOf(classify, rest)))
  {
    LineFirst(classify, b, rest);
    LineFirst(classify, a, Line(b) + rest);
  }

  ghost predicate RecognizesHeaders(classify: Text -> Content) {
    forall name {:trigger HeaderLine(name)} :: Printable(name) ==> Reads(classify, HeaderLine(name), Header(name))
  }

  ghost predicate RecognizesFields(classify: Text -> Content) {
    forall key, value {:trigger Field(key, value)} ::
      IsKey(key) && IsBytes(value) ==> Reads(classify, Field(key, value), KeyValue(key, Unspaced(value)))
  }

  /** What the lines of a saved file are, for a classification of lines. */
  ghost predicate Recognizes(classify: Text -> Content) {
    Reads(classify, "", Skip) && RecognizesHeaders(classify) && RecognizesFields(classify)
  }

  lemma HeaderNoNewline(name: Text)
    requires Printable(name)
    ensures '\n' !in HeaderLine(name)
  {
  }

  lemma HeadersAreRecognized()
    ensures RecognizesHeaders(LineContent)
  {
    forall name | Printable(name)
      ensures Reads(LineContent, HeaderLine(name), Header(name))
    {
      HeaderReads(name);
      HeaderNoNewline(name);
    }
  }

  lemma FieldsAreRecognized()
    ensures RecognizesFields(LineContent)
  {
    forall key, value | IsKey(key) && IsBytes(value)
      ensures Reads(LineContent, Field(key, value), KeyValue(key, Unspaced(value)))
    {
      FieldReads(key, value);
      FieldNoNewline(key, value);
    }
  }

  lemma LineContentRecognizes()
    ensures Recognizes(LineContent)
  {
    BlankIsSkipped();
    HeadersAreRecognized();
    FieldsAreRecognized();
  }

  lemma ServerLines(classify: Text -> Content, s: Server, index: nat, rest: Text)
    requires Recognizes(classify) && WellEnding(s.endpoint) && WellEnding(s.token)
    ensures ScriptOf(classify, ServerText(s, index, rest)) == ServerScript(s, index, ScriptOf(classify, rest))
  {
    var fields := Line(Field("endpoint", s.endpoint)) + (Line(Field("token", s.token)) + rest);
    ServerNames(index);
    TwoLines(classify, Field("endpoint", s.endpoint), Field("token", s.token), KeyValue("endpoint", s.endpoint),
             KeyValue("token", s.token), rest);
    TwoLines(classify, "", HeaderLine(ServerName(index)), Skip, Header(ServerName(index)), fields);
  }

  lemma {:induction false} ServersLines(checks: Checks, classify: Text -> Content, servers: seq<Server>, index: nat)
    requires Recognizes(classify) && AllNormal(checks, servers)
    ensures ScriptOf(classify, ServersText(servers, index)) == ServersScript(servers, index)
    decreases servers
  {
    if servers != [] {
      assert IsNormal(checks, servers[0]);
      TokenValue(servers[0].token);
      ServerLines(classify, servers[0], index, ServersText(servers[1..], index + 1));
      ServersLines(checks, classify, servers[1..], index + 1);
    }
  }

  // ----- the script applied -----------------------------------------------------------------

  lemma FinishPending(checks: Checks, r: Reader)
    requires r.inServer && IsNormal(checks, r.current)
    ensures Finish(checks, r) == Some(r.(config := r.config.(servers := Upsert(r.config.servers, r.current)),
                                         current := BLANK, inServer := false))
  {
  }

  lemma ServerApplies(checks: Checks, r: Reader, f: Reader, s: Server, index: nat, rest: Script)
    requires Finish(checks, r) == Some(f) && f.current == BLANK
    ensures ApplyAll(checks, r, ServerScript(s, index, rest))
            == ApplyAll(checks, f.(section := ServerName(index), inServer := true, current := s), rest)
  {
    ServerNames(index);
    var entered := f.(section := ServerName(index), inServer := true);
    var third := Then(KeyValue("token", s.token), rest);
    var second := Then(KeyValue("endpoint", s.endpoint), third);
    assert ApplyAll(checks, r, ServerScript(s, index, rest))
           == ApplyAll(checks, r, Then(Header(ServerName(index)), second));
    assert ApplyAll(checks, r, Then(Header(ServerName(index)), second)) == ApplyAll(checks, entered, second);
    assert ApplyAll(checks, entered, second) == ApplyAll(checks, entered.(current := Server(s.endpoint, "")), third);
  }

  /** Applying the script and finishing gives this configuration. */
  predicate EndsWith(checks: Checks, r: Reader, script: Script, config: Config) {
    var last := ApplyAll(checks, r, script);
    last.Some? && Finish(checks, last.value).Some? && Finish(checks, last.value).value.config == config
  }

  /** The saved servers are taken over one after the other. */
  lemma {:induction false} ServersApply(checks: Checks, r: Reader, f: Reader, servers: seq<Server>, index: nat)
    requires AllNormal(checks, servers) && Finish(checks, r) == Some(f) && f.current == BLANK
    ensures EndsWith(checks, r, ServersScript(servers, index),
                     f.config.(servers := UpsertAll(f.config.servers, servers)))
    decreases servers
  {
    if servers != [] {
      var s, rest := servers[0], ServersScript(servers[1..], index + 1);
      var pending := f.(section := ServerName(index), inServer := true, current := s);
      var config := f.config.(servers := Upsert(f.config.servers, s));
      assert IsNormal(checks, s);
      ServerApplies(checks, r, f, s, index, rest);
      FinishPending(checks, pending);
      ServersApply(checks, pending, pending.(config := config, inServer := false, current := BLANK), servers[1..],
                   index + 1);
    }
  }

  // ----- loading what was saved -------------------------------------------------------------

  predicate BytesOnly(c: Config) { IsBytes(c.steamPath) && IsBytes(c.playerName) && IsBytes(c.vehicle) }

  function LauncherScript(c: Config, rest: Script): Script {
    Then(Header("launcher"),
         Then(KeyValue("steam_path", Unspaced(c.steamPath)),
              Then(KeyValue("player_name", Unspaced(c.playerName)),
                   Then(KeyValue("vehicle", Unspaced(c.vehicle)), Then(KeyValue("paint", Decimal(c.paint)), rest)))))
  }

  lemma DecimalChars(n: nat)
    ensures forall i :: 0 <= i < |Decimal(n)| ==> IsDigit(Decimal(n)[i])
  {
    assert forall i :: 0 <= i < |Decimal(n)| ==> Decimal(n)[i] in Decimal(n);
  }

  lemma DigitsSurvive(digits: Text)
    requires digits != [] && forall i :: 0 <= i < |digits| ==> IsDigit(digits[i])
    ensures Encode(digits) == digits && WellEnding(digits)
  {
    EncodeSafe(digits);
    UnspacedSame(digits);
  }

  lemma PaintField(paint: nat)
    ensures "paint=" + Decimal(paint) == Field("paint", Decimal(paint)) && WellEnding(Decimal(paint))
  {
    DecimalChars(paint);
    DigitsSurvive(Decimal(paint));
  }

  lemma FourLines(classify: Text -> Content, a: Text, b: Text, c: Text, d: Text, w: Content, x: Content, y: Content,
                  z: Content, rest: Text)
    requires Reads(classify, a, w) && Reads(classify, b, x) && Reads(classify, c, y) && Reads(classify, d, z)
    ensures ScriptOf(classify, Line(a) + (Line(b) + (Line(c) + (Line(d) + rest))))
            == Then(w, Then(x, Then(y, Then(z, ScriptOf(classify, rest)))))
  {
    TwoLines(classify, c, d, y, z, rest);
    TwoLines(classify, a, b, w, x, Line(c) + (Line(d) + rest));
  }

  lemma LauncherKeys()
    ensures IsKey("steam_path") && IsKey("player_name") && IsKey("vehicle") && IsKey("paint")
  {
  }

  lemma FieldReadsAs(classify: Text -> Content, key: Text, value: Text)
    requires RecognizesFields(classify) && IsKey(key) && IsBytes(value)
    ensures Reads(classify, Field(key, value), KeyValue(key, Unspaced(value)))
  {
  }

  lemma FieldsLines(classify: Text -> Content, c: Config, rest: Text)
    requires Recognizes(classify) && BytesOnly(c)
    ensures Then(Header("launcher"), ScriptOf(classify, FieldsText(c, rest)))
            == LauncherScript(c, ScriptOf(classify, rest))
  {
    PaintField(c.paint);
    LauncherKeys();
    FieldReadsAs(classify, "steam_path", c.steamPath);
    FieldReadsAs(classify, "player_name", c.playerName);
    FieldReadsAs(classify, "vehicle", c.vehicle);
    FieldReadsAs(classify, "paint", Decimal(c.paint));
    FourLines(classify, Field("steam_path", c.steamPath), Field("player_name", c.playerName),
              Field("vehicle", c.vehicle),
              Field("paint", Decimal(c.paint)), KeyValue("steam_path", Unspaced(c.steamPath)),
              KeyValue("player_name", Unspaced(c.playerName)), KeyValue("vehicle", Unspaced(c.vehicle)),
              KeyValue("paint", Decimal(c.paint)), rest);
  }

  lemma LauncherHeader(classify: Text -> Content)
    requires RecognizesHeaders(classify)
    ensures Reads(classify, HeaderLine("launcher"), Header("launcher"))
  {
    assert Printable("launcher");
  }

  lemma LauncherLines(classify: Text -> Content, c: Config, rest: Text)
    requires Recognizes(classify) && BytesOnly(c)
    ensures ScriptOf(classify, LauncherText(c, rest)) == LauncherScript(c, ScriptOf(classify, rest))
  {
    FieldsLines(classify, c, rest);
    LauncherHeader(classify);
    LineFirst(classify, HeaderLine("launcher"), FieldsText(c, rest));
  }

  /** The configuration with its values as a reader sees them. */
  function Stripped(c: Config): Config {
    c.(steamPath := Unspaced(c.steamPath), playerName := Unspaced(c.playerName), vehicle := Unspaced(c.vehicle))
  }

  lemma EnterLauncher(checks: Checks)
    ensures Enter(checks, START, "launcher") == Some(Reader(DEFAULTS, "launcher", BLANK, false))
  {
    assert "server."[0] != "launcher"[0];
  }

  lemma LauncherApplies(checks: Checks, c: Config, rest: Script)
    requires c.paint < PAINTS
    ensures ApplyAll(checks, START, LauncherScript(c, rest))
            == if checks.utf8(Unspaced(c.steamPath))
               then ApplyAll(checks, Reader(Stripped(c).(servers := []), "launcher", BLANK, false), rest)
               else None
  {
    var s := Stripped(c);
    var r0 := Reader(DEFAULTS, "launcher", BLANK, false);
    var fourth := Then(KeyValue("paint", Decimal(c.paint)), rest);
    var third := Then(KeyValue("vehicle", s.vehicle), fourth);
    var second := Then(KeyValue("player_name", s.playerName), third);
    var first := Then(KeyValue("steam_path", s.steamPath), second);
    EnterLauncher(checks);
    ParseDecimal(c.paint);
    assert ApplyAll(checks, START, LauncherScript(c, rest)) == ApplyAll(checks, r0, first);
    if checks.utf8(s.steamPath) {
      var r1 := r0.(config := DEFAULTS.(steamPath := s.steamPath));
      var r2 := r1.(config := r1.config.(playerName := s.playerName));
      var r3 := r2.(config := r2.config.(vehicle := s.vehicle));
      assert ApplyAll(checks, r0, first) == ApplyAll(checks, r1, second);
      assert ApplyAll(checks, r1, second) == ApplyAll(checks, r2, third);
      assert ApplyAll(checks, r2, third) == ApplyAll(checks, r3, fourth);
    }
  }

  /** All that the round trip needs of the normal form of endpoints. */
  ghost predicate NormalForms(checks: Checks) {
    forall endpoint {:trigger checks.normalize(endpoint)} :: checks.normalize(endpoint).Some? ==>
      var n := checks.normalize(endpoint).value; checks.normalize(n) == Some(n) && WellEnding(n)
  }

  lemma EndpointsHaveNormalForms(checks: Checks)
    requires NormalizesEndpoints(checks)
    ensures NormalForms(checks)
  {
    forall endpoint | checks.normalize(endpoint).Some?
      ensures var n := checks.normalize(endpoint).value; checks.normalize(n) == Some(n) && WellEnding(n)
    {
      var _, _ := NormalizeIdempotent(endpoint);
      EndpointValue(checks.normalize(endpoint).value);
    }
  }

  lemma {:induction false} NormalizedAreNormal(checks: Checks, servers: seq<Server>)
    requires NormalForms(checks) && NormalizedServers(checks, servers).Some?
    ensures AllNormal(checks, NormalizedServers(checks, servers).value)
  {
    if servers != [] {
      NormalizedAreNormal(checks, servers[1..]);
    }
  }

  /** What comes back from a saved file, for every configuration that can be saved: each text value
      without its trailing spaces, and one server per normalised endpoint, the last one winning. */
  lemma LoadOfSaved(checks: Checks, c: Config)
    requires PaintChecked(checks) && NormalizesEndpoints(checks) && BytesOnly(c) && Save(checks, c).Some?
    ensures var loaded := Stripped(c).(servers := UpsertAll([], NormalizedServers(checks, c.servers).value));
            Load(checks, Save(checks, c).value)
            == if checks.utf8(loaded.steamPath) && ValidIdentity(checks, loaded) then Some(loaded) else None
  {
    var servers := NormalizedServers(checks, c.servers).value;
    var script := ServersScript(servers, 0);
    var r := Reader(Stripped(c).(servers := []), "launcher", BLANK, false);
    EndpointsHaveNormalForms(checks);
    NormalizedAreNormal(checks, c.servers);
    LineContentRecognizes();
    ServersLines(checks, LineContent, servers, 0);
    LauncherLines(LineContent, c, ServersText(servers, 0));
    LauncherApplies(checks, c, script);
    ServersApply(checks, r, r, servers, 0);
  }

  predicate EndsInSpace(v: Text) { v != "" && v[|v| - 1] == ' ' }

  lemma StrippedSame(c: Config, servers: seq<Server>)
    ensures Stripped(c).(servers := UpsertAll([], servers)) == c.(servers := servers)
            <==> Distinct(servers) && !EndsInSpace(c.steamPath) && !EndsInSpace(c.playerName) && !EndsInSpace(c.vehicle)
  {
    UpsertAllKeeps([], servers);
    assert [] + servers == servers;
    UnspacedSame(c.steamPath);
    UnspacedSame(c.playerName);
    UnspacedSame(c.vehicle);
  }

  /** Saving and loading restores a configuration, endpoints normalised, exactly when the normalised
      endpoints are distinct and no value ends in a space. */
  lemma SaveLoadRoundTrip(checks: Checks, c: Config)
    requires PaintChecked(checks) && NormalizesEndpoints(checks) && BytesOnly(c)
    requires checks.utf8(c.steamPath) && Save(checks, c).Some?
    ensures var servers := NormalizedServers(checks, c.servers).value;
            Load(checks, Save(checks, c).value) == Some(c.(servers := servers))
            <==> Distinct(servers) && !EndsInSpace(c.steamPath) && !EndsInSpace(c.playerName) && !EndsInSpace(c.vehicle)
  {
    LoadOfSaved(checks, c);
    StrippedSame(c, NormalizedServers(checks, c.servers).value);
  }

  /** A display name may end in a space; such a configuration is saved and comes back as another one. */
  lemma TrailingSpaceIsLost(checks: Checks)
    requires PaintChecked(checks) && NormalizesEndpoints(checks) && checks.utf8("")
    requires checks.identity("Driver ", "Gazelle", 0) && checks.identity("Driver", "Gazelle", 0)
    ensures var c := DEFAULTS.(playerName := "Driver ");
            Save(checks, c).Some? && Load(checks, Save(checks, c).value) == Some(DEFAULTS.(playerName := "Driver"))
  {
    var c := DEFAULTS.(playerName := "Driver ");
    assert c.playerName == "Driver" + [' '];
    UnspacedSpace("Driver");
    UnspacedSame("Driver");
    UnspacedSame("Gazelle");
    LoadOfSaved(checks, c);
  }

  // ----- the reader and the writer as the source runs them ----------------------------------

  class ConfigReader {
    const checks: Checks
    var config: Config
    var section: Text
    var current: Server
    var inServer: bool

    ghost function Abs(): Reader
      reads this
    {
      Reader(config, section, current, inServer)
    }

    constructor (checks: Checks)
      ensures this.checks == checks && Abs() == START
    {
      this.checks := checks;
      config, section, current, inServer := DEFAULTS, "", BLANK, false;
    }

    method FinishServer() returns (ok: bool)
      modifies this
      ensures Finish(checks, old(Abs())) == if ok then Some(Abs()) else None
    {
      if !inServer {
        return true;
      }
      var endpoint := checks.normalize(current.endpoint);
      if endpoint.None? || !ValidToken(current.token) {
        return false;
      }
      config := config.(servers := Upsert(config.servers, Server(endpoint.value, current.token)));
      current, inServer := BLANK, false;
      ok := true;
    }

    method AssignValue(key: Text, value: Text) returns (ok: bool)
      modifies this
      ensures Assign(checks, old(Abs()), key, value) == if ok then Some(Abs()) else None
    {
      if section == "launcher" {
        if key == "steam_path" {
          if !checks.utf8(value) {
            return false;
          }
          config := config.(steamPath := value);
        } else if key == "player_name" {
          config := config.(playerName := value);
        } else if key == "vehicle" {
          config := config.(vehicle := value);
        } else if key == "paint" {
          var paint := ParseUnsigned(value);
          if paint.None? || paint.value >= PAINTS {
            return false;
          }
          config := config.(paint := paint.value);
        }
      } else if inServer {
        if key == "endpoint" {
          current := current.(endpoint := value);
        }
        if key == "token" {
          current := current.(token := value);
        }
      }
      ok := true;
    }

    method ReadLine(content: Content) returns (ok: bool)
      modifies this
      ensures Apply(checks, old(Abs()), content) == if ok then Some(Abs()) else None
    {
      match content
      case Skip => ok := true;
      case Header(name) =>
        ok := FinishServer();
        if ok {
          section, inServer := name, ServerSection(name);
        }
      case KeyValue(key, value) =>
        if section == "" {
          return false;
        }
        ok := AssignValue(key, value);
      case Malformed => ok := false;
    }

    /** The loop over the lines. */
    method ReadAll(text: Text) returns (ok: bool)
      modifies this
      ensures ApplyAll(checks, old(Abs()), Contents(text)) == if ok then Some(Abs()) else None
    {
      var rest := text;
      while rest != []
        invariant ApplyAll(checks, old(Abs()), Contents(text)) == ApplyAll(checks, Abs(), Contents(rest))
        decreases |rest|
      {
        var end := IndexOf(rest, '\n', 0);
        ok := ReadLine(LineContent(rest[..end]));
        if !ok {
          return;
        }
        rest := if end == |rest| then [] else rest[end + 1..];
      }
      ok := true;
    }
  }

  method LoadConfig(checks: Checks, text: Text) returns (loaded: Option<Config>)
    ensures loaded == Load(checks, text)
  {
    var reader := new ConfigReader(checks);
    var ok := reader.ReadAll(text);
    if !ok {
      return None;
    }
    ok := reader.FinishServer();
    if !ok || !ValidIdentity(checks, reader.config) {
      return None;
    }
    loaded := Some(reader.config);
  }

  function After(done: seq<Server>, rest: Option<seq<Server>>): Option<seq<Server>> {
    if rest.None? then None else Some(done + rest.value)
  }

  lemma AfterNothing(rest: Option<seq<Server>>)
    ensures After([], rest) == rest
  {
    if rest.Some? {
      assert [] + rest.value == rest.value;
    }
  }

  lemma AfterStep(done: seq<Server>, s: Server, rest: Option<seq<Server>>)
    ensures After(done + [s], rest) == After(done, After([s], rest))
  {
    if rest.Some? {
      assert done + [s] + rest.value == done + ([s] + rest.value);
    }
  }

  method NormalizeServers(checks: Checks, servers: seq<Server>) returns (ok: bool, normalized: seq<Server>)
    ensures NormalizedServers(checks, servers) == if ok then Some(normalized) else None
  {
    normalized := [];
    var rest := servers;
    AfterNothing(NormalizedServers(checks, servers));
    while rest != []
      invariant NormalizedServers(checks, servers) == After(normalized, NormalizedServers(checks, rest))
      decreases |rest|
    {
      var endpoint := checks.normalize(rest[0].endpoint);
      if endpoint.None? || !ValidToken(rest[0].token) {
        return false, normalized;
      }
      var server := Server(endpoint.value, rest[0].token);
      AfterStep(normalized, server, NormalizedServers(checks, rest[1..]));
      normalized := normalized + [server];
      rest := rest[1..];
    }
    assert normalized + [] == normalized;
    ok := true;
  }

  lemma ServersTextAppends(servers: seq<Server>, index: nat, n: nat)
    requires n < |servers|
    ensures ServersText(servers[n..], index + n)
            == ServerText(servers[n], index + n, ServersText(servers[n + 1..], index + n + 1))
  {
    assert servers[n..][1..] == servers[n + 1..];
  }

  lemma OutputStep(output: Text, servers: seq<Server>, i: nat)
    requires i < |servers|
    ensures output + ServersText(servers[i..], i)
            == output + ServerText(servers[i], i, "") + ServersText(servers[i + 1..], i + 1)
  {
    ServersTextAppends(servers, 0, i);
    ServerTextPrefix(servers[i], i, ServersText(servers[i + 1..], i + 1));
  }

  method SaveConfig(checks: Checks, c: Config) returns (text: Option<Text>)
    ensures text == Save(checks, c)
  {
    if !ValidIdentity(checks, c) {
      return None;
    }
    var ok, servers := NormalizeServers(checks, c.servers);
    if !ok {
      return None;
    }
    var output := ServersOutput(servers);
    text := Some(LauncherText(c, output));
  }

  /** The loop that writes the servers. */
  method ServersOutput(servers: seq<Server>) returns (output: Text)
    ensures output == ServersText(servers, 0)
  {
    output := "";
    for i := 0 to |servers|
      invariant ServersText(servers, 0) == output + ServersText(servers[i..], i)
    {
      OutputStep(output, servers, i);
      output := output + ServerText(servers[i], i, "");
    }
  }

  lemma ServerTextPrefix(s: Server, index: nat, rest: Text)
    ensures ServerText(s, index, rest) == ServerText(s, index, "") + rest
  {
  }
}
