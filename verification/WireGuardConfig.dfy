/**
 The WireGuard client configuration: printed once by the control plane when a peer is created
 (internal/core/wireguard_peer.go) and parsed by the command-line tool (internal/cli/config.go).
 */
module WireGuardConfig {
  import opened Text
  import opened Ipv6
  import opened AddressPlan

  datatype Service = Service(kind: string, address: string)

  datatype Config = Config(
    privateKey: string, address: Option<Prefix>,
    publicKey: string, presharedKey: string, endpoint: string, allowedIPs: seq<Prefix>, keepalive: int,
    services: seq<Service>)

  datatype Error =
    | BadAddress(text: string) | BadAllowedIP(text: string) | BadKeepalive(text: string)
    | MissingPrivateKey | MissingPublicKey

  const EMPTY := Config("", None, "", "", "", [], 0, [])

  // Parsing.

  const MARKER := "# hosting-cli:services"

  /** The lines a scanner yields: a final line break ends the last line. */
  function Lines(data: string): seq<string> {
    var parts := Split(data, '\n');
    if parts[|parts| - 1] == "" then parts[..|parts| - 1] else parts
  }

  function ToLower(s: string): string {
    if s == "" then ""
    else [if 'A' <= s[0] <= 'Z' then (s[0] as int + 32) as char else s[0]] + ToLower(s[1..])
  }

  predicate IsBracket(c: char) { c == '[' || c == ']' }

  /** `strings.Trim(s, "[]")` */
  function TrimBrackets(s: string): string {
    if s != "" && IsBracket(s[0]) then TrimBrackets(s[1..])
    else if s != "" && IsBracket(s[|s| - 1]) then TrimBrackets(s[..|s| - 1])
    else s
  }

  /** `strconv.Atoi` */
  function Atoi(s: string): Option<int> {
    var digits := if s != "" && (s[0] == '-' || s[0] == '+') then s[1..] else s;
    if digits == "" then None
    else match Decimal(digits)
      case None => None
      case Some(n) =>
        var v := if s[0] == '-' then 0 - (n as int) else n as int;
        if -0x8000_0000_0000_0000 <= v < 0x8000_0000_0000_0000 then Some(v) else None
  }

  /** Appends each prefix of a comma-separated list. */
  function AddAllowedIPs(cfg: Config, parts: seq<string>): Result<Config, Error>
    decreases |parts|
  {
    if parts == [] then Ok(cfg)
    else match ParsePrefix(TrimSpace(parts[0]))
      case None => Err(BadAllowedIP(TrimSpace(parts[0])))
      case Some(p) => AddAllowedIPs(cfg.(allowedIPs := cfg.allowedIPs + [p]), parts[1..])
  }

  datatype Key =
    | PrivateKey | Address | PublicKey | PresharedKey | Endpoint | AllowedIPs | PersistentKeepalive | OtherKey

  function KeyOf(key: string): Key {
    if key == "PrivateKey" then PrivateKey
    else if key == "Address" then Address
    else if key == "PublicKey" then PublicKey
    else if key == "PresharedKey" then PresharedKey
    else if key == "Endpoint" then Endpoint
    else if key == "AllowedIPs" then AllowedIPs
    else if key == "PersistentKeepalive" then PersistentKeepalive
    else OtherKey
  }

  datatype Section = Interface | Remote | OtherSection

  /** Section names are compared in lower case. */
  function SectionOf(header: string): Section {
    var name := ToLower(TrimBrackets(header));
    if name == "interface" then Interface else if name == "peer" then Remote else OtherSection
  }

  /** What a key-value pair does in a section; unknown keys and sections are ignored. */
  function Assign(section: Section, cfg: Config, key: Key, val: string): Result<Config, Error> {
    match (section, key)
    case (Interface, PrivateKey) => Ok(cfg.(privateKey := val))
    case (Interface, Address) =>
      if ParsePrefix(val).Some? then Ok(cfg.(address := ParsePrefix(val))) else Err(BadAddress(val))
    case (Remote, PublicKey) => Ok(cfg.(publicKey := val))
    case (Remote, PresharedKey) => Ok(cfg.(presharedKey := val))
    case (Remote, Endpoint) => Ok(cfg.(endpoint := val))
    case (Remote, AllowedIPs) => AddAllowedIPs(cfg, Split(val, ','))
    case (Remote, PersistentKeepalive) =>
      if Atoi(val).Some? then Ok(cfg.(keepalive := Atoi(val).value)) else Err(BadKeepalive(val))
    case _ => Ok(cfg)
  }

  datatype State = State(section: Section, inServices: bool, cfg: Config)

  const START := State(OtherSection, false, EMPTY)

  function WithService(cfg: Config, comment: string): Config {
    match Cut(comment, '=')
    case None => cfg
    case Some((kind, address)) =>
      cfg.(services := cfg.services + [Service(TrimSpace(kind), TrimSpace(address))])
  }

  predicate IsHeader(line: string) {
    line != "" && line[0] == '[' && line[|line| - 1] == ']'
  }

  /** The effect of a line that is neither blank nor a comment. */
  function Content(st: State, line: string): Result<State, Error> {
    if IsHeader(line) then Ok(st.(section := SectionOf(line)))
    else match Cut(line, '=')
      case None => Ok(st)
      case Some((key, val)) =>
        match Assign(st.section, st.cfg, KeyOf(TrimSpace(key)), TrimSpace(val))
        case Ok(cfg) => Ok(st.(cfg := cfg))
        case Err(e) => Err(e)
  }

  /** The effect of one line. */
  function Step(st: State, raw: string): Result<State, Error> {
    var line := TrimSpace(raw);
    if MARKER <= line then Ok(st.(inServices := true))
    else if st.inServices && "# " <= line then Ok(st.(cfg := WithService(st.cfg, line[2..])))
    else
      var st := if st.inServices && !("#" <= line) then st.(inServices := false) else st;
      if line == "" || line[0] == '#' then Ok(st) else Content(st, line)
  }

  function Run(st: State, lines: seq<string>): Result<State, Error>
    decreases |lines|
  {
    if lines == [] then Ok(st)
    else match Step(st, lines[0])
      case Ok(next) => Run(next, lines[1..])
      case Err(e) => Err(e)
  }

  function Finish(cfg: Config): Result<Config, Error> {
    if cfg.privateKey == "" then Err(MissingPrivateKey)
    else if cfg.publicKey == "" then Err(MissingPublicKey)
    else Ok(cfg)
  }

  function Parse(data: string): Result<Config, Error> {
    match Run(START, Lines(data))
    case Ok(st) => Finish(st.cfg)
    case Err(e) => Err(e)
  }

  method ParseConfigReader(data: string) returns (r: Result<Config, Error>)
    ensures r == Parse(data)
  {
    var cfg, section, inServices := EMPTY, OtherSection, false;
    var lines := Lines(data);
    for i := 0 to |lines|
      invariant Run(State(section, inServices, cfg), lines[i..]) == Run(START, lines)
    {
      ghost var st := State(section, inServices, cfg);
      assert lines[i..][1..] == lines[i + 1..];
      var line := TrimSpace(lines[i]);
      if MARKER <= line {
        inServices := true;
        assert Step(st, lines[i]) == Ok(State(section, inServices, cfg));
        continue;
      }
      if inServices && "# " <= line {
        cfg := WithService(cfg, line[2..]);
        assert Step(st, lines[i]) == Ok(State(section, inServices, cfg));
        continue;
      }
      if inServices && !("#" <= line) {
        inServices := false;
      }
      if line == "" || line[0] == '#' {
        assert Step(st, lines[i]) == Ok(State(section, inServices, cfg));
        continue;
      }
      if IsHeader(line) {
        section := SectionOf(line);
        assert Step(st, lines[i]) == Ok(State(section, inServices, cfg));
        continue;
      }
      var pair := Cut(line, '=');
      if pair.None? {
        assert Step(st, lines[i]) == Ok(State(section, inServices, cfg));
        continue;
      }
      var outcome := Assign(section, cfg, KeyOf(TrimSpace(pair.value.0)), TrimSpace(pair.value.1));
      if outcome.Err? { return Err(outcome.error); }
      cfg := outcome.value;
      assert Step(st, lines[i]) == Ok(State(section, inServices, cfg));
    }
    if cfg.privateKey == "" { return Err(MissingPrivateKey); }
    if cfg.publicKey == "" { return Err(MissingPublicKey); }
    r := Ok(cfg);
  }

  // Printing.

  function Unlines(lines: seq<string>): string {
    if lines == [] then "" else lines[0] + "\n" + Unlines(lines[1..])
  }

  /** A database or cache of the tenant: its kind, its node and the tenant's uid. */
  datatype Target = Target(kind: string, role: string, shardIndex: nat, uid: nat)

  function TargetAddress(hash: nat, t: Target): string {
    TenantULA(hash, TransitIndex(t.role, t.shardIndex), t.uid)
  }

  function ServiceLine(hash: nat, t: Target): string {
    "# " + (t.kind + ("=" + TargetAddress(hash, t)))
  }

  function ServiceLines(hash: nat, targets: seq<Target>): seq<string> {
    seq(|targets|, i requires 0 <= i < |targets| => ServiceLine(hash, targets[i]))
  }

  function KeyLine(key: string, val: string): string { key + (" = " + val) }

  datatype Peer = Peer(privateKey: string, assignedIP: string, publicKey: string, presharedKey: string, endpoint: string)

  type Pairs = seq<(string, string)>

  function KeyLines(pairs: Pairs): seq<string> {
    if pairs == [] then [] else [KeyLine(pairs[0].0, pairs[0].1)] + KeyLines(pairs[1..])
  }

  function InterfacePairs(p: Peer): Pairs {
    [("PrivateKey", p.privateKey), ("Address", p.assignedIP + ("/" + "128"))]
  }

  function PeerPairs(p: Peer): Pairs {
    [("PublicKey", p.publicKey), ("PresharedKey", p.presharedKey), ("Endpoint", p.endpoint),
     ("AllowedIPs", "fd00::/16"), ("PersistentKeepalive", "25")]
  }

  function InterfaceLines(p: Peer): seq<string> {
    ["[Interface]"] + KeyLines(InterfacePairs(p))
  }

  function PeerLines(p: Peer): seq<string> {
    [""] + (["[Peer]"] + KeyLines(PeerPairs(p)))
  }

  function TailLines(hash: nat, targets: seq<Target>): seq<string> {
    if targets == [] then [] else [""] + ([MARKER] + ServiceLines(hash, targets))
  }

  function ConfigLines(hash: nat, p: Peer, targets: seq<Target>): seq<string> {
    InterfaceLines(p) + (PeerLines(p) + TailLines(hash, targets))
  }

  lemma {:induction false} UnlinesAppend(lines: seq<string>, more: seq<string>)
    ensures Unlines(lines + more) == Unlines(lines) + Unlines(more)
  {
    if lines == [] {
      assert lines + more == more;
    } else {
      assert (lines + more)[1..] == lines[1..] + more;
      UnlinesAppend(lines[1..], more);
    }
  }

  /** One comment line per service of the tenant. */
  method BuildServiceLines(hash: nat, targets: seq<Target>) returns (serviceLines: string)
    ensures serviceLines == Unlines(TailLines(hash, targets))
  {
    serviceLines := "";
    if |targets| > 0 {
      serviceLines := "\n" + (MARKER + "\n");
      UnlinesTwo("", MARKER);
      ghost var head := [""] + [MARKER];
      assert head + ServiceLines(hash, targets[..0]) == head;
      for i := 0 to |targets|
        invariant serviceLines == Unlines(head + ServiceLines(hash, targets[..i]))
      {
        serviceLines := serviceLines + ("# " + (targets[i].kind + ("=" + TargetAddress(hash, targets[i]))) + "\n");
        UnlinesAppend(head + ServiceLines(hash, targets[..i]), [ServiceLine(hash, targets[i])]);
        UnlinesOne(ServiceLine(hash, targets[i]));
        assert head + ServiceLines(hash, targets[..i]) + [ServiceLine(hash, targets[i])]
            == head + ServiceLines(hash, targets[..i + 1]);
      }
      assert targets[..|targets|] == targets;
      assert head + ServiceLines(hash, targets) == [""] + ([MARKER] + ServiceLines(hash, targets));
    }
  }

  method BuildClientConfig(hash: nat, p: Peer, targets: seq<Target>) returns (text: string)
    ensures text == Unlines(ConfigLines(hash, p, targets))
  {
    var serviceLines := BuildServiceLines(hash, targets);
    text := Unlines(InterfaceLines(p)) + (Unlines(PeerLines(p)) + serviceLines);
    UnlinesAppend(PeerLines(p), TailLines(hash, targets));
    UnlinesAppend(InterfaceLines(p), PeerLines(p) + TailLines(hash, targets));
  }

  lemma {:induction false} UnlinesOne(line: string)
    ensures Unlines([line]) == line + "\n"
  {
    assert [line][1..] == [];
  }

  lemma {:induction false} UnlinesTwo(a: string, b: string)
    ensures Unlines([a] + [b]) == a + "\n" + (b + "\n")
  {
    assert ([a] + [b])[1..] == [b];
    UnlinesOne(b);
  }

  // The parser undoes the printer, line by line.

  lemma {:induction false} SplitUnlines(lines: seq<string>)
    requires forall i :: 0 <= i < |lines| ==> '\n' !in lines[i]
    ensures Split(Unlines(lines), '\n') == lines + [""]
  {
    if lines == [] {
      assert lines + [""] == [""];
    } else {
      SplitUnlines(lines[1..]);
      SplitFirst(lines[0], '\n', Unlines(lines[1..]));
      assert [lines[0]] + (lines[1..] + [""]) == lines + [""];
    }
  }

  lemma {:induction false} LinesOfUnlines(lines: seq<string>)
    requires forall i :: 0 <= i < |lines| ==> '\n' !in lines[i]
    ensures Lines(Unlines(lines)) == lines
  {
    SplitUnlines(lines);
    assert (lines + [""])[..|lines|] == lines;
  }

  lemma {:induction false} NotMarker(line: string)
    requires line == "" || line[0] != '#'
    ensures !(MARKER <= line) && !("#" <= line) && !("# " <= line)
  {
    assert MARKER[0] == '#';
  }

  /** A plain key: letters only. */
  predicate IsKey(key: string) {
    key != "" && forall i :: 0 <= i < |key| ==> 'A' <= key[i] <= 'Z' || 'a' <= key[i] <= 'z'
  }

  lemma {:induction false} TrimmedKeyLine(key: string, val: string)
    requires IsKey(key) && Trimmed(val)
    ensures TrimSpace(KeyLine(key, val)) == key + (" =" + if val == "" then "" else " " + val)
  {
    var line := KeyLine(key, val);
    assert line[0] == key[0];
    if val == "" {
      var t := key + " =";
      assert line == t + " ";
      assert t[0] == key[0];
      TrimDropsSpaceAfter(t);
      assert key + (" =" + "") == t;
    } else {
      assert line[|line| - 1] == val[|val| - 1];
      TrimmedIsFixed(line);
      assert " = " + val == " =" + (" " + val);
    }
  }

  lemma {:induction false} PartsOfKeyLine(key: string, val: string)
    requires IsKey(key) && Trimmed(val)
    ensures var line := TrimSpace(KeyLine(key, val));
      && line != "" && line[0] == key[0]
      && Cut(line, '=') == Some((key + " ", if val == "" then "" else " " + val))
      && TrimSpace(key + " ") == key
      && TrimSpace(if val == "" then "" else " " + val) == val
  {
    TrimmedKeyLine(key, val);
    var tail := if val == "" then "" else " " + val;
    assert key + (" =" + tail) == (key + " ") + ['='] + tail;
    CutFirst(key + " ", '=', tail);
    TrimDropsSpaceAfter(key);
    if val != "" {
      TrimDropsSpaceBefore(val);
      TrimmedIsFixed(val);
    }
  }

  lemma {:induction false} StepOnKeyLine(st: State, key: string, val: string)
    requires !st.inServices && IsKey(key) && Trimmed(val)
    ensures Step(st, KeyLine(key, val))
         == match Assign(st.section, st.cfg, KeyOf(key), val) case Ok(cfg) => Ok(st.(cfg := cfg)) case Err(e) => Err(e)
  {
    PartsOfKeyLine(key, val);
    NotMarker(TrimSpace(KeyLine(key, val)));
  }

  lemma {:induction false} RunFirst(st: State, line: string, rest: seq<string>)
    ensures Run(st, [line] + rest)
         == match Step(st, line) case Ok(next) => Run(next, rest) case Err(e) => Err(e)
  {
    assert ([line] + rest)[1..] == rest;
  }

  lemma {:induction false} TrimBracketsOfHeader(name: string)
    requires name != "" && !IsBracket(name[0]) && !IsBracket(name[|name| - 1])
    ensures TrimBrackets("[" + (name + "]")) == name
  {
    var h := "[" + (name + "]");
    var t := name + "]";
    assert h[1..] == t;
    assert t[0] == name[0] && t[..|name|] == name;
    assert TrimBrackets(name) == name;
    assert TrimBrackets(t) == TrimBrackets(name);
  }

  lemma {:induction false} StepOnHeader(st: State, name: string)
    requires !st.inServices
    requires name != "" && !IsBracket(name[0]) && !IsBracket(name[|name| - 1])
    ensures Step(st, "[" + (name + "]")) == Ok(st.(section := SectionOf("[" + (name + "]"))))
  {
    var h := "[" + (name + "]");
    assert h[0] == '[' && h[|h| - 1] == ']';
    TrimmedIsFixed(h);
    NotMarker(h);
  }

  lemma {:induction false} LowerFirst(c: char, rest: string)
    requires 'A' <= c <= 'Z' && forall i :: 0 <= i < |rest| ==> !('A' <= rest[i] <= 'Z')
    ensures ToLower([c] + rest) == [(c as int + 32) as char] + rest
  {
    assert ([c] + rest)[1..] == rest;
    LowerFixed(rest);
  }

  lemma {:induction false} LowerFixed(s: string)
    requires forall i :: 0 <= i < |s| ==> !('A' <= s[i] <= 'Z')
    ensures ToLower(s) == s
  {
    if s == "" {
    } else {
      LowerFixed(s[1..]);
      assert s == [s[0]] + s[1..];
    }
  }

  lemma {:induction false} InterfaceSection()
    ensures SectionOf("[" + ("Interface" + "]")) == Interface
  {
    TrimBracketsOfHeader("Interface");
    assert "Interface" == ['I'] + "nterface";
    LowerFirst('I', "nterface");
    assert ['i'] + "nterface" == "interface";
  }

  lemma {:induction false} PeerSection()
    ensures SectionOf("[" + ("Peer" + "]")) == Remote
  {
    TrimBracketsOfHeader("Peer");
    assert "Peer" == ['P'] + "eer";
    LowerFirst('P', "eer");
    assert ['p'] + "eer" == "peer";
  }

  lemma {:induction false} StepOnBlank(st: State)
    ensures Step(st, "") == Ok(st.(inServices := false))
  {
    NotMarker("");
  }

  // The fixed part.

  const ULA_RANGE := Prefix([0xfd00, 0, 0, 0, 0, 0, 0, 0], 16)

  lemma {:induction false} AllowedText()
    ensures ParsePrefix("fd00::/16") == Some(ULA_RANGE)
  {
    assert "fd00::/16" == "fd00::" + ("/" + "16");
    TwoDigits("16", 1, 6);
    PrefixReadsBack("fd00::", "16", 16);
    AllowedAddr();
  }

  lemma {:induction false} AllowedAddr()
    ensures ParseAddr("fd00::") == Some([0xfd00, 0, 0, 0, 0, 0, 0, 0])
  {
    assert "fd00::" == "fd00" + ("::" + "");
    CutDoubleFirst("fd00", "");
    SplitWhole("fd00", ':');
    GroupFd00();
    OneGroup("fd00");
    assert [0xfd00] + Zeros(7) + [] == [0xfd00, 0, 0, 0, 0, 0, 0, 0];
  }

  lemma {:induction false} AddOneAllowed(cfg: Config, s: string, p: Prefix)
    requires cfg.allowedIPs == [] && ',' !in s && Trimmed(s) && ParsePrefix(s) == Some(p)
    ensures AddAllowedIPs(cfg, Split(s, ',')) == Ok(cfg.(allowedIPs := [p]))
  {
    SplitWhole(s, ',');
    TrimmedIsFixed(s);
    assert [s][1..] == [];
    assert [] + [p] == [p];
  }

  lemma {:induction false} AllowedPrefix(cfg: Config)
    requires cfg.allowedIPs == []
    ensures AddAllowedIPs(cfg, Split("fd00::/16", ',')) == Ok(cfg.(allowedIPs := [ULA_RANGE]))
  {
    AllowedText();
    AddOneAllowed(cfg, "fd00::/16", ULA_RANGE);
  }

  lemma {:induction false} Keepalive25()
    ensures Atoi("25") == Some(25)
  {
    var s := "25";
    assert s[..1] == "2" && s[..1][..0] == "";
    assert Decimal("2") == Some(2);
  }

  predicate IsField(s: string) { Trimmed(s) && '\n' !in s }

  function Services(hash: nat, targets: seq<Target>): seq<Service> {
    seq(|targets|, i requires 0 <= i < |targets| => Service(targets[i].kind, TargetAddress(hash, targets[i])))
  }

  /** The configuration that was meant. */
  function Meant(hash: nat, peerIndex: nat, p: Peer, targets: seq<Target>): Config {
    Config(p.privateKey, Some(Prefix(AddrGroups(hash, 0xFFFF, peerIndex), 128)),
      p.publicKey, p.presharedKey, p.endpoint, [ULA_RANGE], 25,
      Services(hash, targets))
  }

  lemma {:induction false} AddressReads(hash: nat, peerIndex: nat)
    requires hash < 0xFFFF
    ensures var text := WireGuardClientIP(hash, peerIndex) + ("/" + "128");
      ParsePrefix(text) == if peerIndex < GROUP then Some(Prefix(AddrGroups(hash, 0xFFFF, peerIndex), 128)) else None
  {
    WireGuardText(hash, peerIndex);
    AddrTextHasNoSlash(hash, 0xFFFF, peerIndex);
    Bits128();
    PrefixReadsBack(WireGuardClientIP(hash, peerIndex), "128", 128);
    AddrReadsBackIffFits(hash, 0xFFFF, peerIndex);
  }

  lemma {:induction false} AddressIsField(hash: nat, mid: nat, low: nat, tail: string)
    requires SpaceFree(tail)
    ensures IsField(AddrText(hash, mid, low) + tail) && SpaceFree(AddrText(hash, mid, low) + tail)
  {
    HexRoundTrip(hash);
    HexRoundTrip(mid);
    HexRoundTrip(low);
    var s := AddrText(hash, mid, low) + tail;
    forall i | 0 <= i < |s| ensures !IsSpace(s[i]) {
      assert s[i] in "fd00:" || s[i] in Hex(hash) || s[i] in Hex(mid) || s[i] in Hex(low) || s[i] == ':' || s[i] in tail;
    }
    assert '\n' !in s by { assert IsSpace('\n'); }
  }

  /** The pairs of a section, assigned one after the other. */
  function AssignAll(section: Section, cfg: Config, pairs: Pairs): Result<Config, Error>
    decreases |pairs|
  {
    if pairs == [] then Ok(cfg)
    else match Assign(section, cfg, KeyOf(pairs[0].0), pairs[0].1)
      case Ok(next) => AssignAll(section, next, pairs[1..])
      case Err(e) => Err(e)
  }

  lemma {:induction false} RunKeyLines(section: Section, cfg: Config, pairs: Pairs, rest: seq<string>)
    requires forall i :: 0 <= i < |pairs| ==> IsKey(pairs[i].0) && Trimmed(pairs[i].1)
    ensures Run(State(section, false, cfg), KeyLines(pairs) + rest)
         == match AssignAll(section, cfg, pairs)
            case Ok(next) => Run(State(section, false, next), rest)
            case Err(e) => Err(e)
    decreases |pairs|
  {
    if pairs == [] {
      assert [] + rest == rest;
    } else {
      var st := State(section, false, cfg);
      var more := KeyLines(pairs[1..]) + rest;
      assert KeyLines(pairs) + rest == [KeyLine(pairs[0].0, pairs[0].1)] + more;
      RunFirst(st, KeyLine(pairs[0].0, pairs[0].1), more);
      StepOnKeyLine(st, pairs[0].0, pairs[0].1);
      match Assign(section, cfg, KeyOf(pairs[0].0), pairs[0].1) {
        case Ok(next) => RunKeyLines(section, next, pairs[1..], rest);
        case Err(e) =>
      }
    }
  }

  lemma {:induction false} KeyNames()
    ensures KeyOf("PrivateKey") == PrivateKey && KeyOf("Address") == Address
    ensures KeyOf("PublicKey") == PublicKey && KeyOf("PresharedKey") == PresharedKey
    ensures KeyOf("Endpoint") == Endpoint && KeyOf("AllowedIPs") == AllowedIPs
    ensures KeyOf("PersistentKeepalive") == PersistentKeepalive
  {
    assert "AllowedIPs"[0] != "PrivateKey"[0];
  }

  lemma {:induction false} AssignFirst(section: Section, cfg: Config, pair: (string, string), rest: Pairs)
    ensures AssignAll(section, cfg, [pair] + rest)
         == match Assign(section, cfg, KeyOf(pair.0), pair.1)
            case Ok(next) => AssignAll(section, next, rest)
            case Err(e) => Err(e)
  {
    assert ([pair] + rest)[1..] == rest;
  }

  lemma {:induction false} AssignInterface(cfg: Config, p: Peer)
    ensures AssignAll(Interface, cfg, InterfacePairs(p))
         == var a := ParsePrefix(p.assignedIP + ("/" + "128"));
            if a.Some? then Ok(cfg.(privateKey := p.privateKey, address := a))
            else Err(BadAddress(p.assignedIP + ("/" + "128")))
  {
    KeyNames();
    var a := ("Address", p.assignedIP + ("/" + "128"));
    assert InterfacePairs(p) == [("PrivateKey", p.privateKey)] + [a];
    AssignFirst(Interface, cfg, ("PrivateKey", p.privateKey), [a]);
    assert [a] == [a] + [];
    AssignFirst(Interface, cfg.(privateKey := p.privateKey), a, []);
  }

  lemma {:induction false} AssignFive(section: Section, cfg: Config,
      a: (string, string), b: (string, string), c: (string, string), d: (string, string), e: (string, string),
      c1: Config, c2: Config, c3: Config, c4: Config, c5: Config)
    requires Assign(section, cfg, KeyOf(a.0), a.1) == Ok(c1) && Assign(section, c1, KeyOf(b.0), b.1) == Ok(c2)
    requires Assign(section, c2, KeyOf(c.0), c.1) == Ok(c3) && Assign(section, c3, KeyOf(d.0), d.1) == Ok(c4)
    requires Assign(section, c4, KeyOf(e.0), e.1) == Ok(c5)
    ensures AssignAll(section, cfg, [a, b, c, d, e]) == Ok(c5)
  {
    AssignFirst(section, cfg, a, [b, c, d, e]);
    AssignFirst(section, c1, b, [c, d, e]);
    AssignFirst(section, c2, c, [d, e]);
    AssignFirst(section, c3, d, [e]);
    AssignFirst(section, c4, e, []);
    assert [a] + [b, c, d, e] == [a, b, c, d, e] && [b] + [c, d, e] == [b, c, d, e];
    assert [c] + [d, e] == [c, d, e] && [d] + [e] == [d, e] && [e] + [] == [e];
  }

  lemma {:induction false} AssignPeerKeys(cfg: Config, value: string)
    ensures Assign(Remote, cfg, KeyOf("PublicKey"), value) == Ok(cfg.(publicKey := value))
    ensures Assign(Remote, cfg, KeyOf("PresharedKey"), value) == Ok(cfg.(presharedKey := value))
    ensures Assign(Remote, cfg, KeyOf("Endpoint"), value) == Ok(cfg.(endpoint := value))
  {
    KeyNames();
  }

  lemma {:induction false} AssignPeerNet(cfg: Config)
    requires cfg.allowedIPs == []
    ensures Assign(Remote, cfg, KeyOf("AllowedIPs"), "fd00::/16") == Ok(cfg.(allowedIPs := [ULA_RANGE]))
  {
    KeyNames();
    AllowedPrefix(cfg);
  }

  lemma {:induction false} AssignPeerAlive(cfg: Config)
    ensures Assign(Remote, cfg, KeyOf("PersistentKeepalive"), "25") == Ok(cfg.(keepalive := 25))
  {
    KeyNames();
    Keepalive25();
  }

  lemma {:induction false} AssignPeer(cfg: Config, p: Peer)
    requires cfg.allowedIPs == []
    ensures AssignAll(Remote, cfg, PeerPairs(p)) == Ok(PeerConfig(cfg, p))
  {
    var c1 := cfg.(publicKey := p.publicKey);
    var c2 := c1.(presharedKey := p.presharedKey);
    var c3 := c2.(endpoint := p.endpoint);
    var c4 := c3.(allowedIPs := [ULA_RANGE]);
    AssignPeerKeys(cfg, p.publicKey);
    AssignPeerKeys(c1, p.presharedKey);
    AssignPeerKeys(c2, p.endpoint);
    AssignPeerNet(c3);
    AssignPeerAlive(c4);
    AssignFive(Remote, cfg, ("PublicKey", p.publicKey), ("PresharedKey", p.presharedKey), ("Endpoint", p.endpoint),
      ("AllowedIPs", "fd00::/16"), ("PersistentKeepalive", "25"), c1, c2, c3, c4, c4.(keepalive := 25));
  }

  lemma {:induction false} RunConcat(st: State, a: seq<string>, b: seq<string>, mid: State)
    requires Run(st, a) == Ok(mid)
    ensures Run(st, a + b) == Run(mid, b)
    decreases |a|
  {
    if a == [] {
      assert a + b == b;
    } else {
      assert (a + b)[0] == a[0] && (a + b)[1..] == a[1..] + b;
      RunConcat(Step(st, a[0]).value, a[1..], b, mid);
    }
  }

  lemma {:induction false} RunConcatErr(st: State, a: seq<string>, b: seq<string>)
    requires Run(st, a).Err?
    ensures Run(st, a + b) == Run(st, a)
    decreases |a|
  {
    assert (a + b)[0] == a[0] && (a + b)[1..] == a[1..] + b;
    if Step(st, a[0]).Ok? { RunConcatErr(Step(st, a[0]).value, a[1..], b); }
  }

  lemma {:induction false} InterfaceHeader()
    ensures Step(START, "[Interface]") == Ok(State(Interface, false, EMPTY))
  {
    assert "[" + ("Interface" + "]") == "[Interface]";
    StepOnHeader(START, "Interface");
    InterfaceSection();
  }

  lemma {:induction false} PeerHeader(cfg: Config)
    ensures Step(State(Interface, false, cfg), "[Peer]") == Ok(State(Remote, false, cfg))
  {
    assert "[" + ("Peer" + "]") == "[Peer]";
    StepOnHeader(State(Interface, false, cfg), "Peer");
    PeerSection();
  }

  lemma {:induction false} RunSection(st: State, header: string, section: Section, pairs: Pairs)
    requires Step(st, header) == Ok(State(section, false, st.cfg))
    requires forall i :: 0 <= i < |pairs| ==> IsKey(pairs[i].0) && Trimmed(pairs[i].1)
    ensures Run(st, [header] + KeyLines(pairs))
         == match AssignAll(section, st.cfg, pairs) case Ok(cfg) => Ok(State(section, false, cfg)) case Err(e) => Err(e)
  {
    RunFirst(st, header, KeyLines(pairs));
    assert KeyLines(pairs) + [] == KeyLines(pairs);
    RunKeyLines(section, st.cfg, pairs, []);
  }

  function InterfaceConfig(hash: nat, peerIndex: nat, p: Peer): Config {
    EMPTY.(privateKey := p.privateKey, address := Some(Prefix(AddrGroups(hash, 0xFFFF, peerIndex), 128)))
  }

  function PeerConfig(cfg: Config, p: Peer): Config {
    cfg.(publicKey := p.publicKey, presharedKey := p.presharedKey, endpoint := p.endpoint,
      allowedIPs := [ULA_RANGE], keepalive := 25)
  }

  /** The interface section of the file. */
  lemma {:induction false} RunInterface(hash: nat, peerIndex: nat, p: Peer)
    requires hash < 0xFFFF && IsField(p.privateKey) && p.assignedIP == WireGuardClientIP(hash, peerIndex)
    ensures Run(START, InterfaceLines(p))
         == if peerIndex < GROUP then Ok(State(Interface, false, InterfaceConfig(hash, peerIndex, p)))
            else Err(BadAddress(p.assignedIP + ("/" + "128")))
  {
    InterfaceHeader();
    InterfacePairsAreFields(hash, peerIndex, p);
    RunSection(START, "[Interface]", Interface, InterfacePairs(p));
    AssignInterface(EMPTY, p);
    AddressReads(hash, peerIndex);
  }

  lemma {:induction false} InterfacePairsAreFields(hash: nat, peerIndex: nat, p: Peer)
    requires IsField(p.privateKey) && p.assignedIP == WireGuardClientIP(hash, peerIndex)
    ensures forall i :: 0 <= i < |InterfacePairs(p)| ==> IsKey(InterfacePairs(p)[i].0) && IsField(InterfacePairs(p)[i].1)
  {
    WireGuardText(hash, peerIndex);
    AddressIsField(hash, 0xFFFF, peerIndex, "/" + "128");
  }

  /** The peer section of the file. */
  lemma {:induction false} RunPeer(cfg: Config, p: Peer)
    requires IsField(p.publicKey) && IsField(p.presharedKey) && IsField(p.endpoint)
    requires cfg.allowedIPs == []
    ensures Run(State(Interface, false, cfg), PeerLines(p)) == Ok(State(Remote, false, PeerConfig(cfg, p)))
  {
    var st := State(Interface, false, cfg);
    RunFirst(st, "", ["[Peer]"] + KeyLines(PeerPairs(p)));
    StepOnBlank(st);
    PeerHeader(cfg);
    PeerPairsAreFields(p);
    RunSection(st, "[Peer]", Remote, PeerPairs(p));
    AssignPeer(cfg, p);
  }

  lemma {:induction false} PeerPairsAreFields(p: Peer)
    requires IsField(p.publicKey) && IsField(p.presharedKey) && IsField(p.endpoint)
    ensures forall i :: 0 <= i < |PeerPairs(p)| ==> IsKey(PeerPairs(p)[i].0) && IsField(PeerPairs(p)[i].1)
  {
  }

  // The service comments.

  predicate IsServiceKind(kind: string) { kind == "mysql" || kind == "valkey" }

  lemma {:induction false} StepOnMarker(st: State)
    ensures Step(st, MARKER) == Ok(st.(inServices := true))
  {
    assert MARKER[0] == '#' && MARKER[|MARKER| - 1] == 's';
    TrimmedIsFixed(MARKER);
  }

  lemma {:induction false} ServiceLineShape(kind: string, address: string)
    requires IsServiceKind(kind) && Trimmed(address) && address != ""
    ensures var line := "# " + (kind + ("=" + address));
      && Trimmed(line) && !(MARKER <= line) && "# " <= line && line[2..] == kind + ['='] + address
  {
    var line := "# " + (kind + ("=" + address));
    assert line[0] == '#' && line[1] == ' ' && line[|line| - 1] == address[|address| - 1];
    assert line[2] == kind[0] && kind[0] != 'h';
    assert MARKER[2] == 'h';
  }

  lemma {:induction false} ServiceAdded(cfg: Config, kind: string, address: string)
    requires IsServiceKind(kind) && Trimmed(address)
    ensures WithService(cfg, kind + ['='] + address) == cfg.(services := cfg.services + [Service(kind, address)])
  {
    assert '=' !in "mysql" && '=' !in "valkey";
    CutFirst(kind, '=', address);
    TrimmedIsFixed(kind);
    TrimmedIsFixed(address);
  }

  lemma {:induction false} StepOnService(st: State, kind: string, address: string)
    requires st.inServices && IsServiceKind(kind) && Trimmed(address) && address != ""
    ensures Step(st, "# " + (kind + ("=" + address)))
         == Ok(st.(cfg := st.cfg.(services := st.cfg.services + [Service(kind, address)])))
  {
    ServiceLineShape(kind, address);
    TrimmedIsFixed("# " + (kind + ("=" + address)));
    ServiceAdded(st.cfg, kind, address);
  }

  lemma {:induction false} StepOnTarget(st: State, hash: nat, t: Target)
    requires st.inServices && IsServiceKind(t.kind)
    ensures Step(st, ServiceLine(hash, t))
         == Ok(st.(cfg := st.cfg.(services := st.cfg.services + [Service(t.kind, TargetAddress(hash, t))])))
  {
    assert TargetAddress(hash, t) + "" == TargetAddress(hash, t);
    AddressIsField(hash, TransitIndex(t.role, t.shardIndex), t.uid, "");
    StepOnService(st, t.kind, TargetAddress(hash, t));
  }

  lemma {:induction false} RunServices(st: State, hash: nat, targets: seq<Target>)
    requires st.inServices && forall i :: 0 <= i < |targets| ==> IsServiceKind(targets[i].kind)
    ensures Run(st, ServiceLines(hash, targets))
         == Ok(st.(cfg := st.cfg.(services := st.cfg.services + Services(hash, targets))))
    decreases |targets|
  {
    ServicesShape(st.cfg.services, hash, targets);
    if targets == [] {
    } else {
      var t := targets[0];
      RunFirst(st, ServiceLine(hash, t), ServiceLines(hash, targets[1..]));
      StepOnTarget(st, hash, t);
      var next := st.(cfg := st.cfg.(services := st.cfg.services + [Service(t.kind, TargetAddress(hash, t))]));
      RunServices(next, hash, targets[1..]);
    }
  }

  lemma {:induction false} ServicesShape(before: seq<Service>, hash: nat, targets: seq<Target>)
    ensures targets == [] ==> ServiceLines(hash, targets) == [] && before + Services(hash, targets) == before
    ensures targets != [] ==>
      && ServiceLines(hash, targets) == [ServiceLine(hash, targets[0])] + ServiceLines(hash, targets[1..])
      && before + Services(hash, targets)
           == before + [Service(targets[0].kind, TargetAddress(hash, targets[0]))] + Services(hash, targets[1..])
  {
  }

  lemma {:induction false} RunTail(cfg: Config, hash: nat, targets: seq<Target>)
    requires cfg.services == []
    requires forall i :: 0 <= i < |targets| ==> IsServiceKind(targets[i].kind)
    ensures Run(State(Remote, false, cfg), TailLines(hash, targets))
         == Ok(State(Remote, targets != [], cfg.(services := Services(hash, targets))))
  {
    var st := State(Remote, false, cfg);
    if targets == [] {
      assert Services(hash, targets) == [];
    } else {
      RunFirst(st, "", [MARKER] + ServiceLines(hash, targets));
      StepOnBlank(st);
      RunFirst(st, MARKER, ServiceLines(hash, targets));
      StepOnMarker(st);
      RunServices(st.(inServices := true), hash, targets);
      assert [] + Services(hash, targets) == Services(hash, targets);
    }
  }

  // Putting the file together.

  ghost predicate OneLine(lines: seq<string>) {
    forall i :: 0 <= i < |lines| ==> '\n' !in lines[i]
  }

  lemma {:induction false} KeyLinesAreLines(pairs: Pairs)
    requires forall i :: 0 <= i < |pairs| ==> IsKey(pairs[i].0) && IsField(pairs[i].1)
    ensures OneLine(KeyLines(pairs))
    decreases |pairs|
  {
    if pairs == [] {
    } else {
      KeyLinesAreLines(pairs[1..]);
    }
  }

  lemma {:induction false} ServiceLinesAreLines(hash: nat, targets: seq<Target>)
    requires forall i :: 0 <= i < |targets| ==> IsServiceKind(targets[i].kind)
    ensures OneLine(ServiceLines(hash, targets))
  {
    forall i | 0 <= i < |targets| ensures '\n' !in ServiceLine(hash, targets[i]) {
      var t := targets[i];
      assert TargetAddress(hash, t) + "" == TargetAddress(hash, t);
      AddressIsField(hash, TransitIndex(t.role, t.shardIndex), t.uid, "");
    }
  }

  lemma {:induction false} OneLineConcat(a: seq<string>, b: seq<string>)
    requires OneLine(a) && OneLine(b)
    ensures OneLine(a + b)
  {
  }

  lemma {:induction false} ConfigHasNoBreaks(hash: nat, peerIndex: nat, p: Peer, targets: seq<Target>)
    requires p.assignedIP == WireGuardClientIP(hash, peerIndex) && HasFields(p)
    requires forall i :: 0 <= i < |targets| ==> IsServiceKind(targets[i].kind)
    ensures OneLine(ConfigLines(hash, p, targets))
  {
    InterfacePairsAreFields(hash, peerIndex, p);
    KeyLinesAreLines(InterfacePairs(p));
    PeerPairsAreFields(p);
    KeyLinesAreLines(PeerPairs(p));
    ServiceLinesAreLines(hash, targets);
    OneLineConcat(["[Interface]"], KeyLines(InterfacePairs(p)));
    OneLineConcat(["[Peer]"], KeyLines(PeerPairs(p)));
    OneLineConcat([""], ["[Peer]"] + KeyLines(PeerPairs(p)));
    OneLineConcat([MARKER], ServiceLines(hash, targets));
    OneLineConcat([""], [MARKER] + ServiceLines(hash, targets));
    OneLineConcat(PeerLines(p), TailLines(hash, targets));
    OneLineConcat(InterfaceLines(p), PeerLines(p) + TailLines(hash, targets));
  }

  predicate HasFields(p: Peer) {
    IsField(p.privateKey) && IsField(p.publicKey) && IsField(p.presharedKey) && IsField(p.endpoint)
  }

  lemma {:induction false} RunWhole(hash: nat, peerIndex: nat, p: Peer, targets: seq<Target>)
    requires hash < 0xFFFF && p.assignedIP == WireGuardClientIP(hash, peerIndex) && HasFields(p)
    requires forall i :: 0 <= i < |targets| ==> IsServiceKind(targets[i].kind)
    ensures Run(START, ConfigLines(hash, p, targets))
         == if peerIndex >= GROUP then Err(BadAddress(p.assignedIP + ("/" + "128")))
            else Ok(State(Remote, targets != [], Meant(hash, peerIndex, p, targets)))
  {
    RunInterface(hash, peerIndex, p);
    if peerIndex < GROUP {
      var c := InterfaceConfig(hash, peerIndex, p);
      RunPeer(c, p);
      RunTail(PeerConfig(c, p), hash, targets);
      RunThree(InterfaceLines(p), PeerLines(p), TailLines(hash, targets),
        State(Interface, false, c), State(Remote, false, PeerConfig(c, p)));
    } else {
      RunConcatErr(START, InterfaceLines(p), PeerLines(p) + TailLines(hash, targets));
    }
  }

  lemma {:induction false} RunThree(a: seq<string>, b: seq<string>, c: seq<string>, afterA: State, afterB: State)
    requires Run(START, a) == Ok(afterA) && Run(afterA, b) == Ok(afterB)
    ensures Run(START, a + (b + c)) == Run(afterB, c)
  {
    RunConcat(START, a, b + c, afterA);
    RunConcat(afterA, b, c, afterB);
  }

  /**
   Parsing what was printed gives back every field and every service in order, for all trimmed
   one-line fields, any services and any peer index that fits an address group; otherwise, and only
   then, the parser reports the first thing wrong.
   */
  lemma {:induction false} PrintedConfigReadsBack(hash: nat, peerIndex: nat, p: Peer, targets: seq<Target>)
    requires hash < 0xFFFF && p.assignedIP == WireGuardClientIP(hash, peerIndex) && HasFields(p)
    requires forall i :: 0 <= i < |targets| ==> IsServiceKind(targets[i].kind)
    ensures Parse(Unlines(ConfigLines(hash, p, targets)))
         == if peerIndex >= GROUP then Err(BadAddress(p.assignedIP + ("/" + "128")))
            else if p.privateKey == "" then Err(MissingPrivateKey)
            else if p.publicKey == "" then Err(MissingPublicKey)
            else Ok(Meant(hash, peerIndex, p, targets))
  {
    ConfigHasNoBreaks(hash, peerIndex, p, targets);
    LinesOfUnlines(ConfigLines(hash, p, targets));
    RunWhole(hash, peerIndex, p, targets);
  }

  // What the parser does with any pair.

  predicate IsNetwork(part: string) { ParsePrefix(TrimSpace(part)).Some? }

  /** The networks of a list, in order. */
  function Networks(parts: seq<string>): seq<Prefix>
    requires forall i :: 0 <= i < |parts| ==> IsNetwork(parts[i])
  {
    seq(|parts|, i requires 0 <= i < |parts| && IsNetwork(parts[i]) => ParsePrefix(TrimSpace(parts[i])).value)
  }

  /** A list of networks is appended in order. */
  lemma {:induction false} AllowedIPsAppended(cfg: Config, parts: seq<string>)
    requires forall i :: 0 <= i < |parts| ==> IsNetwork(parts[i])
    ensures AddAllowedIPs(cfg, parts) == Ok(cfg.(allowedIPs := cfg.allowedIPs + Networks(parts)))
    decreases |parts|
  {
    if parts == [] {
      assert cfg.allowedIPs + Networks(parts) == cfg.allowedIPs;
    } else {
      var first := ParsePrefix(TrimSpace(parts[0])).value;
      assert IsNetwork(parts[0]) && forall i :: 0 <= i < |parts[1..]| ==> IsNetwork(parts[1..][i]);
      AllowedIPsAppended(cfg.(allowedIPs := cfg.allowedIPs + [first]), parts[1..]);
      assert cfg.allowedIPs + [first] + Networks(parts[1..]) == cfg.allowedIPs + Networks(parts);
    }
  }

  /** The first entry that is no network is reported. */
  lemma {:induction false} FirstBadNetwork(cfg: Config, parts: seq<string>, i: nat)
    requires i < |parts| && !IsNetwork(parts[i]) && forall j :: 0 <= j < i ==> IsNetwork(parts[j])
    ensures AddAllowedIPs(cfg, parts) == Err(BadAllowedIP(TrimSpace(parts[i])))
    decreases |parts|
  {
    if i > 0 {
      assert IsNetwork(parts[0]);
      FirstBadNetwork(cfg.(allowedIPs := cfg.allowedIPs + [ParsePrefix(TrimSpace(parts[0])).value]), parts[1..], i - 1);
    }
  }

  /** The keys of each section by name; anything else is ignored. */
  lemma {:induction false} KeysMean(cfg: Config, val: string)
    ensures Assign(Interface, cfg, KeyOf("PrivateKey"), val) == Ok(cfg.(privateKey := val))
    ensures Assign(Remote, cfg, KeyOf("PublicKey"), val) == Ok(cfg.(publicKey := val))
    ensures Assign(Remote, cfg, KeyOf("PresharedKey"), val) == Ok(cfg.(presharedKey := val))
    ensures Assign(Remote, cfg, KeyOf("Endpoint"), val) == Ok(cfg.(endpoint := val))
    ensures Assign(Remote, cfg, KeyOf("AllowedIPs"), val) == AddAllowedIPs(cfg, Split(val, ','))
    ensures Assign(Interface, cfg, KeyOf("Address"), val)
         == if ParsePrefix(val).Some? then Ok(cfg.(address := ParsePrefix(val))) else Err(BadAddress(val))
    ensures Assign(Remote, cfg, KeyOf("PersistentKeepalive"), val)
         == if Atoi(val).Some? then Ok(cfg.(keepalive := Atoi(val).value)) else Err(BadKeepalive(val))
    ensures Assign(Interface, cfg, KeyOf("PublicKey"), val) == Ok(cfg) == Assign(Remote, cfg, KeyOf("PrivateKey"), val)
    ensures Assign(OtherSection, cfg, KeyOf("PrivateKey"), val) == Ok(cfg) == Assign(Interface, cfg, KeyOf("DNS"), val)
  {
    KeyNames();
  }

  // The configuration in literal terms.

  /** The i-th service is the i-th target's kind, and its address that of the tenant on the target's machine. */
  predicate ServiceFor(hash: nat, t: Target, s: Service) {
    var index := if t.role == "database" then 256 + t.shardIndex else if t.role == "valkey" then 512 + t.shardIndex
                 else if t.role == "gateway" then 768 + t.shardIndex else t.shardIndex;
    && s.kind == t.kind
    && ParseAddr(s.address)
       == if index < 0x10000 && t.uid < 0x10000 then Some([0xfd00, hash, index, 0, 0, 0, 0, t.uid]) else None
  }

  lemma {:induction false} ServiceIsFor(hash: nat, t: Target)
    requires hash < 0xFFFF
    ensures ServiceFor(hash, t, Service(t.kind, TargetAddress(hash, t)))
  {
    AddrReadsBackIffFits(hash, TransitIndex(t.role, t.shardIndex), t.uid);
    TransitIndexByRole(t.role, t.shardIndex);
  }

  /** What the client is configured with: its own fields, the platform's range, and each service at its address. */
  lemma {:induction false} PrintedConfigLaw(hash: nat, peerIndex: nat, p: Peer, targets: seq<Target>)
    requires hash < 0xFFFF && p.assignedIP == WireGuardClientIP(hash, peerIndex) && HasFields(p)
    requires forall i :: 0 <= i < |targets| ==> IsServiceKind(targets[i].kind)
    ensures var r := Parse(Unlines(ConfigLines(hash, p, targets)));
      && (r.Ok? <==> peerIndex < 0x10000 && p.privateKey != "" && p.publicKey != "")
      && (r.Ok? ==>
            && r.value.privateKey == p.privateKey && r.value.publicKey == p.publicKey
            && r.value.presharedKey == p.presharedKey && r.value.endpoint == p.endpoint
            && r.value.address == Some(Prefix([0xfd00, hash, 0xffff, 0, 0, 0, 0, peerIndex], 128))
            && r.value.allowedIPs == [Prefix([0xfd00, 0, 0, 0, 0, 0, 0, 0], 16)] && r.value.keepalive == 25
            && |r.value.services| == |targets|
            && forall i :: 0 <= i < |targets| ==> ServiceFor(hash, targets[i], r.value.services[i]))
  {
    PrintedConfigReadsBack(hash, peerIndex, p, targets);
    forall i | 0 <= i < |targets| ensures ServiceFor(hash, targets[i], Services(hash, targets)[i]) {
      ServiceIsFor(hash, targets[i]);
    }
  }

  /** The lines of the interface section as they are printed. */
  lemma {:induction false} PrintedInterface(p: Peer)
    ensures InterfaceLines(p)
         == ["[Interface]", "PrivateKey" + (" = " + p.privateKey), "Address" + (" = " + (p.assignedIP + ("/" + "128")))]
  {
    PairLines(InterfacePairs(p));
  }

  /** The lines of the peer section. */
  lemma {:induction false} PrintedPeer(p: Peer)
    ensures PeerLines(p)
         == ["", "[Peer]", "PublicKey" + (" = " + p.publicKey), "PresharedKey" + (" = " + p.presharedKey),
             "Endpoint" + (" = " + p.endpoint), "AllowedIPs" + (" = " + "fd00::/16"),
             "PersistentKeepalive" + (" = " + "25")]
  {
    PairLines(PeerPairs(p));
  }

  /** The lines for the command-line tool: none without services. */
  lemma {:induction false} PrintedServices(hash: nat, targets: seq<Target>)
    ensures targets == [] ==> TailLines(hash, targets) == []
    ensures targets != [] ==>
      && |TailLines(hash, targets)| == 2 + |targets|
      && TailLines(hash, targets)[..2] == ["", "# hosting-cli:services"]
      && forall i :: 0 <= i < |targets| ==>
           TailLines(hash, targets)[2 + i] == "# " + (targets[i].kind + ("=" + TargetAddress(hash, targets[i])))
  {
  }

  /** The file is these lines, each ended by a line break. */
  lemma {:induction false} PrintedLines(hash: nat, p: Peer, targets: seq<Target>)
    ensures Unlines(ConfigLines(hash, p, targets))
         == Unlines(InterfaceLines(p)) + (Unlines(PeerLines(p)) + Unlines(TailLines(hash, targets)))
  {
    UnlinesAppend(PeerLines(p), TailLines(hash, targets));
    UnlinesAppend(InterfaceLines(p), PeerLines(p) + TailLines(hash, targets));
  }

  lemma {:induction false} PairLines(pairs: Pairs)
    ensures |KeyLines(pairs)| == |pairs|
    ensures forall i :: 0 <= i < |pairs| ==> KeyLines(pairs)[i] == pairs[i].0 + (" = " + pairs[i].1)
    decreases |pairs|
  {
    if pairs == [] {
    } else {
      PairLines(pairs[1..]);
    }
  }
}
