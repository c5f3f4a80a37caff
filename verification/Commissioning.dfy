/** Commissioning a node: text commands edit a draft configuration, which is
    validated and stored on request. The web form goes through the same
    commands, printing its fields into command lines. */
module Commissioning {
  import opened Text

  const MIN_NODE_ID := 1
  const MAX_NODE_ID := 99
  const MIN_BROKER_PORT := 1
  const MAX_BROKER_PORT := 65535
  const MIN_TURNOUT_ADDRESS := 1
  const MAX_TURNOUT_ADDRESS := 2048

  /** A node's configuration; the number of channels is the source's template
      parameter. An address of 0 means that the channel is not configured. */
  datatype Config = Config(
    nodeId: int, wifiSsid: string, wifiPassword: string,
    brokerHost: string, brokerPort: int, channels: seq<int>)
  {
    function WithChannelAddress(channel: int, address: int): Config
    {
      if 1 <= channel <= |channels| then this.(channels := channels[channel - 1 := address]) else this
    }

    ghost predicate Valid()
    {
      && MIN_NODE_ID <= nodeId <= MAX_NODE_ID
      && wifiSsid != ""
      && brokerHost != ""
      && MIN_BROKER_PORT <= brokerPort <= MAX_BROKER_PORT
      && (forall i :: 0 <= i < |channels| && channels[i] != 0 ==>
            MIN_TURNOUT_ADDRESS <= channels[i] <= MAX_TURNOUT_ADDRESS)
      && (forall i, j :: 0 <= i < j < |channels| && channels[i] != 0 ==> channels[i] != channels[j])
    }
  }

  // ------------------------------------------------------------- validation

  /** A validation message. Channels are counted from 0 here, from 1 in the text. */
  datatype ConfigError =
    | NodeIdRange
    | SsidEmpty
    | HostEmpty
    | PortRange
    | AddressRange(channel: nat)
    | Clash(channel: nat, other: nat, address: int)
  {
    function Message(): string
    {
      match this
      case NodeIdRange => "node id must be between " + ToText(MIN_NODE_ID) + " and " + ToText(MAX_NODE_ID)
      case SsidEmpty => "wifi ssid must not be empty"
      case HostEmpty => "broker host must not be empty"
      case PortRange => "broker port must be between " + ToText(MIN_BROKER_PORT) + " and " + ToText(MAX_BROKER_PORT)
      case AddressRange(i) =>
        "channel " + ToText(i + 1) + " address must be between " + ToText(MIN_TURNOUT_ADDRESS)
        + " and " + ToText(MAX_TURNOUT_ADDRESS)
      case Clash(i, j, address) =>
        "channels " + ToText(i + 1) + " and " + ToText(j + 1) + " both claim turnout address " + ToText(address)
    }
  }

  function When(condition: bool, error: ConfigError): seq<ConfigError>
  {
    if condition then [error] else []
  }

  ghost predicate ChannelFine(c: Config, i: nat)
    requires i < |c.channels|
  {
    c.channels[i] != 0 ==>
      && MIN_TURNOUT_ADDRESS <= c.channels[i] <= MAX_TURNOUT_ADDRESS
      && forall j :: i < j < |c.channels| ==> c.channels[j] != c.channels[i]
  }

  function FieldErrors(c: Config): seq<ConfigError>
  {
    When(c.nodeId < MIN_NODE_ID || c.nodeId > MAX_NODE_ID, NodeIdRange)
    + When(c.wifiSsid == "", SsidEmpty)
    + When(c.brokerHost == "", HostEmpty)
    + When(c.brokerPort < MIN_BROKER_PORT || c.brokerPort > MAX_BROKER_PORT, PortRange)
  }

  function AddressError(c: Config, i: nat): seq<ConfigError>
    requires i < |c.channels|
  {
    When(c.channels[i] < MIN_TURNOUT_ADDRESS || c.channels[i] > MAX_TURNOUT_ADDRESS, AddressRange(i))
  }

  /** Clashes of channel i with the channels from i + 1 up to n. */
  function ClashErrors(c: Config, i: nat, n: nat): (errors: seq<ConfigError>)
    requires i < n <= |c.channels|
    ensures |errors| == 0 <==> forall j :: i < j < n ==> c.channels[j] != c.channels[i]
    decreases n
  {
    if n == i + 1 then []
    else ClashErrors(c, i, n - 1)
         + When(c.channels[n - 1] == c.channels[i], Clash(i, n - 1, c.channels[i]))
  }

  /** Errors of the first n channels. */
  function ChannelErrors(c: Config, n: nat): (errors: seq<ConfigError>)
    requires n <= |c.channels|
    ensures |errors| == 0 <==> forall i :: 0 <= i < n ==> ChannelFine(c, i)
  {
    if n == 0 then []
    else ChannelErrors(c, n - 1) + OneChannelErrors(c, n - 1)
  }

  function OneChannelErrors(c: Config, i: nat): (errors: seq<ConfigError>)
    requires i < |c.channels|
    ensures |errors| == 0 <==> ChannelFine(c, i)
  {
    if c.channels[i] == 0 then [] else AddressError(c, i) + ClashErrors(c, i, |c.channels|)
  }

  function Errors(c: Config): seq<ConfigError>
  {
    FieldErrors(c) + ChannelErrors(c, |c.channels|)
  }

  method Validate(c: Config) returns (errors: seq<ConfigError>)
    ensures errors == Errors(c)
    ensures errors == [] <==> c.Valid()
  {
    var fieldErrors := ValidateFields(c);
    var channelErrors := ValidateChannels(c);
    errors := fieldErrors + channelErrors;
    NoErrorsIffValid(c);
  }

  method ValidateFields(c: Config) returns (errors: seq<ConfigError>)
    ensures errors == FieldErrors(c)
  {
    errors := [];
    if c.nodeId < MIN_NODE_ID || c.nodeId > MAX_NODE_ID {
      errors := errors + [NodeIdRange];
    }
    if c.wifiSsid == "" {
      errors := errors + [SsidEmpty];
    }
    if c.brokerHost == "" {
      errors := errors + [HostEmpty];
    }
    if c.brokerPort < MIN_BROKER_PORT || c.brokerPort > MAX_BROKER_PORT {
      errors := errors + [PortRange];
    }
  }

  method ValidateChannels(c: Config) returns (errors: seq<ConfigError>)
    ensures errors == ChannelErrors(c, |c.channels|)
  {
    errors := [];
    for i := 0 to |c.channels|
      invariant errors == ChannelErrors(c, i)
    {
      var more := ValidateChannel(c, i);
      errors := errors + more;
    }
  }

  /** The body of the channel loop. */
  method ValidateChannel(c: Config, i: nat) returns (errors: seq<ConfigError>)
    requires i < |c.channels|
    ensures errors == OneChannelErrors(c, i)
  {
    var address := c.channels[i];
    errors := [];
    if address == 0 { return; }
    if address < MIN_TURNOUT_ADDRESS || address > MAX_TURNOUT_ADDRESS {
      errors := errors + [AddressRange(i)];
    }
    for j := i + 1 to |c.channels|
      invariant errors == AddressError(c, i) + ClashErrors(c, i, j)
    {
      if c.channels[j] == address {
        errors := errors + [Clash(i, j, address)];
      }
    }
  }

  /** Validation finds nothing to complain about exactly in the configurations
      with every field in range and every address claimed once. */
  lemma NoErrorsIffValid(c: Config)
    ensures Errors(c) == [] <==> c.Valid()
  {
    assert |Errors(c)| == |FieldErrors(c)| + |ChannelErrors(c, |c.channels|)|;
    if c.Valid() {
      forall i | 0 <= i < |c.channels| ensures ChannelFine(c, i) {}
    }
    if forall i :: 0 <= i < |c.channels| ==> ChannelFine(c, i) {
      forall i | 0 <= i < |c.channels| && c.channels[i] != 0
        ensures MIN_TURNOUT_ADDRESS <= c.channels[i] <= MAX_TURNOUT_ADDRESS
        ensures forall j :: i < j < |c.channels| ==> c.channels[i] != c.channels[j]
      {
        assert ChannelFine(c, i);
      }
    }
  }

  /** The configuration is as the message complains. */
  ghost predicate Deserved(c: Config, e: ConfigError)
  {
    match e
    case NodeIdRange => !(1 <= c.nodeId <= 99)
    case SsidEmpty => c.wifiSsid == ""
    case HostEmpty => c.brokerHost == ""
    case PortRange => !(1 <= c.brokerPort <= 65535)
    case AddressRange(i) => i < |c.channels| && c.channels[i] != 0 && !(1 <= c.channels[i] <= 2048)
    case Clash(i, j, address) =>
      i < j < |c.channels| && c.channels[i] == c.channels[j] == address && address != 0
  }

  predicate OfAField(e: ConfigError) { e.NodeIdRange? || e.SsidEmpty? || e.HostEmpty? || e.PortRange? }

  lemma FieldErrorsExactly(c: Config, e: ConfigError)
    ensures e in FieldErrors(c) <==> OfAField(e) && Deserved(c, e)
  {}

  lemma {:induction false} ClashErrorsExactly(c: Config, i: nat, n: nat, e: ConfigError)
    requires i < n <= |c.channels|
    ensures e in ClashErrors(c, i, n) <==>
            e.Clash? && e.channel == i && i < e.other < n && c.channels[i] == c.channels[e.other] == e.address
    decreases n
  {
    if n > i + 1 { ClashErrorsExactly(c, i, n - 1, e); }
  }

  lemma OneChannelExactly(c: Config, i: nat, e: ConfigError)
    requires i < |c.channels|
    ensures e in OneChannelErrors(c, i) <==>
            !OfAField(e) && e.channel == i && Deserved(c, e)
  {
    ClashErrorsExactly(c, i, |c.channels|, e);
  }

  /** Each whole is the one before and a further part. */
  ghost predicate PartByPart<T>(wholes: seq<seq<T>>, parts: seq<seq<T>>)
  {
    |wholes| == |parts| + 1 && wholes[0] == [] && forall k :: 0 <= k < |parts| ==> wholes[k + 1] == wholes[k] + parts[k]
  }

  lemma OneMorePart<T>(wholes: seq<seq<T>>, parts: seq<seq<T>>, whole: seq<T>, part: seq<T>)
    requires PartByPart(wholes, parts) && whole == wholes[|parts|] + part
    ensures PartByPart(wholes + [whole], parts + [part])
  {}

  /** What is in a sequence put together part by part is in one of the parts. */
  lemma {:induction false} InSomePart<T>(wholes: seq<seq<T>>, parts: seq<seq<T>>, n: nat, e: T)
    requires n <= |parts| && PartByPart(wholes, parts)
    ensures e in wholes[n] <==> exists i: nat :: i < n && e in parts[i]
    decreases n
  {
    if n > 0 {
      InSomePart(wholes, parts, n - 1, e);
      assert wholes[n - 1 + 1] == wholes[n - 1] + parts[n - 1];
    }
  }

  lemma OneMoreChannel(c: Config, n: nat)
    requires n < |c.channels|
    ensures ChannelErrors(c, n + 1) == ChannelErrors(c, n) + OneChannelErrors(c, n)
  {}

  /** One of the channels gives this message. */
  ghost predicate Listed(c: Config, e: ConfigError)
  {
    exists i: nat :: i < |c.channels| && e in OneChannelErrors(c, i)
  }

  /** The lists of messages after 0, 1, 2, ... channels, and what each channel adds. */
  lemma {:induction false} ListsOfErrors(c: Config, n: nat)
    returns (wholes: seq<seq<ConfigError>>, parts: seq<seq<ConfigError>>)
    requires n <= |c.channels|
    ensures |parts| == n && PartByPart(wholes, parts) && wholes[n] == ChannelErrors(c, n)
    ensures forall k: nat :: k < n ==> parts[k] == OneChannelErrors(c, k)
    decreases n
  {
    if n == 0 {
      wholes, parts := [[]], [];
    } else {
      var w, p := ListsOfErrors(c, n - 1);
      OneMoreChannel(c, n - 1);
      OneMorePart(w, p, ChannelErrors(c, n), OneChannelErrors(c, n - 1));
      wholes, parts := w + [ChannelErrors(c, n)], p + [OneChannelErrors(c, n - 1)];
    }
  }

  lemma ChannelErrorsListed(c: Config, e: ConfigError)
    ensures e in ChannelErrors(c, |c.channels|) <==> Listed(c, e)
  {
    var wholes, parts := ListsOfErrors(c, |c.channels|);
    InSomePart(wholes, parts, |c.channels|, e);
  }

  lemma ListedExactly(c: Config, e: ConfigError)
    ensures Listed(c, e) <==> !OfAField(e) && Deserved(c, e)
  {
    if Listed(c, e) {
      var i: nat :| i < |c.channels| && e in OneChannelErrors(c, i);
      OneChannelExactly(c, i, e);
    }
    if !OfAField(e) && Deserved(c, e) { OneChannelExactly(c, e.channel, e); }
  }

  /** A message is reported exactly if it is deserved. */
  lemma ReportedExactly(c: Config, e: ConfigError)
    ensures e in Errors(c) <==> Deserved(c, e)
  {
    FieldErrorsExactly(c, e);
    ChannelErrorsListed(c, e);
    ListedExactly(c, e);
  }

  // --------------------------------------------------------------- commands

  datatype Command =
    | Id(n: int)
    | Wifi(ssid: string, password: string)
    | Broker(host: string, port: int)
    | TurnoutAddress(channel: int, address: int)
    | Show
    | Save
    | Reboot
    | Invalid(complaint: Complaint)

  /** Why a line is refused; Message() is the text sent back. */
  datatype Complaint =
    | EmptyCommand
    | Usage(verb: Verb)
    | NotANumber(field: NumberField)
    | UnknownCommand(word: string)
  {
    function Message(): string
    {
      match this
      case EmptyCommand => "empty command"
      case Usage(verb) => "usage: " + UsageOf(verb)
      case NotANumber(field) => NameOf(field) + " must be a number"
      case UnknownCommand(word) => "unknown command: " + word
    }
  }

  datatype NumberField = NodeIdField | BrokerPortField | ChannelField | AddressField

  function NameOf(field: NumberField): string
  {
    match field
    case NodeIdField => "id"
    case BrokerPortField => "broker port"
    case ChannelField => "turnout channel"
    case AddressField => "turnout address"
  }

  function UsageOf(verb: Verb): string
  {
    match verb
    case IdVerb => "id <n>"
    case WifiVerb => "wifi <ssid> <password> (no spaces in either)"
    case BrokerVerb => "broker <host> <port>"
    case TurnoutVerb => "turnout <n> address <address>"
    case ShowVerb => "show"
    case SaveVerb => "save"
    case RebootVerb => "reboot"
    case NoVerb => ""
  }

  datatype Verb = IdVerb | WifiVerb | BrokerVerb | TurnoutVerb | ShowVerb | SaveVerb | RebootVerb | NoVerb

  function VerbOf(token: string): Verb
  {
    if token == "id" then IdVerb
    else if token == "wifi" then WifiVerb
    else if token == "broker" then BrokerVerb
    else if token == "turnout" then TurnoutVerb
    else if token == "show" then ShowVerb
    else if token == "save" then SaveVerb
    else if token == "reboot" then RebootVerb
    else NoVerb
  }

  function Interpreted(tokens: seq<string>): Command
  {
    if tokens == [] then Invalid(EmptyCommand)
    else match VerbOf(tokens[0]) {
      case IdVerb => IdCommand(tokens)
      case WifiVerb => if |tokens| != 3 then Invalid(Usage(WifiVerb)) else Wifi(tokens[1], tokens[2])
      case BrokerVerb => BrokerCommand(tokens)
      case TurnoutVerb => TurnoutAddressCommand(tokens)
      case ShowVerb => if |tokens| != 1 then Invalid(Usage(ShowVerb)) else Show
      case SaveVerb => if |tokens| != 1 then Invalid(Usage(SaveVerb)) else Save
      case RebootVerb => if |tokens| != 1 then Invalid(Usage(RebootVerb)) else Reboot
      case NoVerb => Invalid(UnknownCommand(tokens[0]))
    }
  }

  function IdCommand(tokens: seq<string>): Command
  {
    if |tokens| != 2 then Invalid(Usage(IdVerb))
    else match ParseInt(tokens[1]) {
      case None => Invalid(NotANumber(NodeIdField))
      case Some(n) => Id(n)
    }
  }

  function BrokerCommand(tokens: seq<string>): Command
  {
    if |tokens| != 3 then Invalid(Usage(BrokerVerb))
    else match ParseInt(tokens[2]) {
      case None => Invalid(NotANumber(BrokerPortField))
      case Some(port) => Broker(tokens[1], port)
    }
  }

  function TurnoutAddressCommand(tokens: seq<string>): Command
  {
    if |tokens| != 4 || tokens[2] != "address" then Invalid(Usage(TurnoutVerb))
    else match ParseInt(tokens[1]) {
      case None => Invalid(NotANumber(ChannelField))
      case Some(channel) =>
        match ParseInt(tokens[3]) {
          case None => Invalid(NotANumber(AddressField))
          case Some(address) => TurnoutAddress(channel, address)
        }
    }
  }

  function Parse(line: string): Command { Interpreted(Tokens(line)) }

  /** The tokens of the line that gives this command. */
  ghost predicate Spells(tokens: seq<string>, c: Command)
  {
    match c
    case Id(n) => |tokens| == 2 && tokens[0] == "id" && ParseInt(tokens[1]) == Some(n)
    case Wifi(ssid, password) =>
      |tokens| == 3 && tokens[0] == "wifi" && tokens[1] == ssid && tokens[2] == password
    case Broker(host, port) =>
      |tokens| == 3 && tokens[0] == "broker" && tokens[1] == host && ParseInt(tokens[2]) == Some(port)
    case TurnoutAddress(channel, address) =>
      && |tokens| == 4 && tokens[0] == "turnout" && ParseInt(tokens[1]) == Some(channel)
      && tokens[2] == "address" && ParseInt(tokens[3]) == Some(address)
    case Show => |tokens| == 1 && tokens[0] == "show"
    case Save => |tokens| == 1 && tokens[0] == "save"
    case Reboot => |tokens| == 1 && tokens[0] == "reboot"
    case Invalid(_) => false
  }

  lemma VerbsExactly(token: string)
    ensures VerbOf(token) == IdVerb <==> token == "id"
    ensures VerbOf(token) == WifiVerb <==> token == "wifi"
    ensures VerbOf(token) == BrokerVerb <==> token == "broker"
    ensures VerbOf(token) == TurnoutVerb <==> token == "turnout"
    ensures VerbOf(token) == ShowVerb <==> token == "show"
    ensures VerbOf(token) == SaveVerb <==> token == "save"
    ensures VerbOf(token) == RebootVerb <==> token == "reboot"
  {
    WordsDiffer();
  }

  lemma WordsDiffer()
    ensures "id" != "wifi" && "wifi" != "broker" && "broker" != "turnout" && "turnout" != "id"
    ensures "id" != "broker" && "wifi" != "turnout" && "show" != "save" && "show" != "reboot" && "save" != "reboot"
    ensures "show" != "id" && "show" != "wifi" && "show" != "broker" && "show" != "turnout"
    ensures "save" != "id" && "save" != "wifi" && "save" != "broker" && "save" != "turnout"
    ensures "reboot" != "id" && "reboot" != "wifi" && "reboot" != "broker" && "reboot" != "turnout"
  {
    assert "id"[0] == 'i' && "wifi"[0] == 'w' && "broker"[0] == 'b' && "turnout"[0] == 't' && "reboot"[0] == 'r';
    assert "show"[0] == 's' && "save"[0] == 's' && "show"[1] == 'h' && "save"[1] == 'a';
  }

  function VerbIn(c: Command): Verb
  {
    match c
    case Id(_) => IdVerb
    case Wifi(_, _) => WifiVerb
    case Broker(_, _) => BrokerVerb
    case TurnoutAddress(_, _) => TurnoutVerb
    case Show => ShowVerb
    case Save => SaveVerb
    case Reboot => RebootVerb
    case Invalid(_) => NoVerb
  }

  /** What follows the verb. */
  ghost predicate Details(tokens: seq<string>, c: Command)
  {
    match c
    case Id(n) => |tokens| == 2 && ParseInt(tokens[1]) == Some(n)
    case Wifi(ssid, password) => |tokens| == 3 && tokens[1] == ssid && tokens[2] == password
    case Broker(host, port) => |tokens| == 3 && tokens[1] == host && ParseInt(tokens[2]) == Some(port)
    case TurnoutAddress(channel, address) =>
      |tokens| == 4 && ParseInt(tokens[1]) == Some(channel) && tokens[2] == "address"
      && ParseInt(tokens[3]) == Some(address)
    case Show => |tokens| == 1
    case Save => |tokens| == 1
    case Reboot => |tokens| == 1
    case Invalid(_) => false
  }

  lemma InterpretedExactly(tokens: seq<string>, c: Command)
    requires !c.Invalid?
    ensures Interpreted(tokens) == c <==> tokens != [] && VerbOf(tokens[0]) == VerbIn(c) && Details(tokens, c)
  {
    if tokens != [] {
      match VerbOf(tokens[0]) {
        case IdVerb => IdExactly(tokens, c);
        case BrokerVerb => BrokerExactly(tokens, c);
        case TurnoutVerb => TurnoutExactly(tokens, c);
        case _ =>
      }
    }
  }

  lemma IdExactly(tokens: seq<string>, c: Command)
    requires !c.Invalid?
    ensures IdCommand(tokens) == c <==> c.Id? && Details(tokens, c)
  {}

  lemma BrokerExactly(tokens: seq<string>, c: Command)
    requires !c.Invalid?
    ensures BrokerCommand(tokens) == c <==> c.Broker? && Details(tokens, c)
  {}

  lemma TurnoutExactly(tokens: seq<string>, c: Command)
    requires !c.Invalid?
    ensures TurnoutAddressCommand(tokens) == c <==> c.TurnoutAddress? && Details(tokens, c)
  {}

  lemma SpellsByVerb(tokens: seq<string>, c: Command)
    requires !c.Invalid? && tokens != []
    ensures Spells(tokens, c) <==> VerbOf(tokens[0]) == VerbIn(c) && Details(tokens, c)
  {
    VerbsExactly(tokens[0]);
  }

  /** A command is given by exactly the lines that spell it; every other line is
      refused. */
  lemma ParseExactly(line: string, c: Command)
    requires !c.Invalid?
    ensures Parse(line) == c <==> Spells(Tokens(line), c)
  {
    InterpretedExactly(Tokens(line), c);
    if Tokens(line) != [] { SpellsByVerb(Tokens(line), c); }
  }

  // ---------------------------------------------------------------- session

  /** The store takes a whole configuration or leaves what it had; which of the
      attempts it accepts is up to the hardware. */
  type Policy = nat -> bool

  class ConfigStore {
    const accepts: Policy
    var stored: Config
    var handed: seq<Config>   // every configuration it was asked to save

    constructor (accepts: Policy, initial: Config)
      ensures this.accepts == accepts && stored == initial && handed == []
    {
      this.accepts := accepts;
      stored, handed := initial, [];
    }

    method Save(config: Config) returns (ok: bool)
      modifies this
      ensures ok == accepts(|old(handed)|) && handed == old(handed) + [config]
      ensures stored == if ok then config else old(stored)
    {
      ok := accepts(|handed|);
      handed := handed + [config];
      if ok { stored := config; }
    }
  }

  datatype SessionState = SessionState(draft: Config, rebootRequested: bool, stored: Config, handed: seq<Config>)

  /** What a command answers; Text() is the line sent back. The program compares
      the texts, and ResponsesDiffer shows that this compares the answers. */
  datatype Response =
    | Done
    | Saved
    | Rebooting
    | Shown(config: Config)
    | NotValid(errors: seq<ConfigError>)
    | SaveFailed
    | NoSuchChannel(count: nat)
    | NotUnderstood(complaint: Complaint)
  {
    function Text(): string
    {
      match this
      case Done => "OK\n"
      case Saved => "saved\n"
      case Rebooting => "rebooting\n"
      case Shown(config) => FormatShow(config)
      case NotValid(errors) => FormatErrors(Messages(errors), |errors|)
      case SaveFailed => "save failed: could not write to storage\n"
      case NoSuchChannel(count) => "error: turnout channel must be between 1 and " + (ToText(count) + "\n")
      case NotUnderstood(complaint) => "error: " + (complaint.Message() + "\n")
    }
  }

  function Messages(errors: seq<ConfigError>): seq<string>
  {
    seq(|errors|, i requires 0 <= i < |errors| => errors[i].Message())
  }

  function FormatErrors(messages: seq<string>, n: nat): string
    requires n <= |messages|
  {
    if n == 0 then "invalid config:\n" else FormatErrors(messages, n - 1) + ("  - " + (messages[n - 1] + "\n"))
  }

  function FormatAddress(address: int): string
  {
    if address == 0 then "(unconfigured)" else ToText(address)
  }

  function FormatChannels(channels: seq<int>, n: nat): string
    requires n <= |channels|
  {
    if n == 0 then ""
    else FormatChannels(channels, n - 1) + "turnout " + ToText(n) + ": " + FormatAddress(channels[n - 1]) + "\n"
  }

  function FormatShow(c: Config): string
  {
    "id: " + (ToText(c.nodeId) + ("\n" + FormatLinks(c)))
  }

  function FormatLinks(c: Config): string
  {
    "wifi ssid: " + (if c.wifiSsid == "" then "(unconfigured)" else c.wifiSsid) + "\n"
    + "broker: " + (if c.brokerHost == "" then "(unconfigured)" else c.brokerHost) + ":" + ToText(c.brokerPort) + "\n"
    + FormatChannels(c.channels, |c.channels|)
  }

  lemma StartsWith(start: string, a: string, b: string)
    requires start <= a
    ensures start <= a + b
  {}

  lemma {:induction false} ErrorsStart(messages: seq<string>, n: nat)
    requires n <= |messages|
    ensures "in" <= FormatErrors(messages, n)
    decreases n
  {
    if n > 0 {
      ErrorsStart(messages, n - 1);
      StartsWith("in", FormatErrors(messages, n - 1), "  - " + (messages[n - 1] + "\n"));
    }
  }

  lemma ErrorTextsStart(r: Response)
    requires r.NoSuchChannel? || r.NotUnderstood?
    ensures "er" <= r.Text()
  {
    match r {
      case NoSuchChannel(count) =>
        StartsWith("er", "error: turnout channel must be between 1 and ", ToText(count) + "\n");
      case NotUnderstood(complaint) => StartsWith("er", "error: ", complaint.Message() + "\n");
    }
  }

  lemma OtherTextsStart(r: Response)
    requires !r.Done? && !r.Saved? && !r.Rebooting?
    ensures "id" <= r.Text() || "in" <= r.Text() || "er" <= r.Text() || "save " <= r.Text()
  {
    match r {
      case Shown(c) => StartsWith("id", "id: ", ToText(c.nodeId) + ("\n" + FormatLinks(c)));
      case NotValid(errors) => ErrorsStart(Messages(errors), |errors|);
      case SaveFailed => assert "save " <= r.Text();
      case _ => ErrorTextsStart(r);
    }
  }

  lemma StartsApart(text: string)
    requires "id" <= text || "in" <= text || "er" <= text || "save " <= text
    ensures text != "OK\n" && text != "saved\n" && text != "rebooting\n"
  {
    assert text[1] in {'d', 'n', 'r', 'a'};
    assert text[1] == 'a' ==> text[4] == ' ';
    assert text[1] != 'a' ==> text[0] in {'i', 'e'};
  }

  /** The three texts the program looks for are those of these three answers. */
  lemma ResponsesDiffer(r: Response)
    ensures r.Text() == "OK\n" <==> r == Done
    ensures r.Text() == "saved\n" <==> r == Saved
    ensures r.Text() == "rebooting\n" <==> r == Rebooting
  {
    if r.Done? || r.Saved? || r.Rebooting? {
      assert Done.Text()[0] == 'O' && Saved.Text()[0] == 's' && Rebooting.Text()[0] == 'r';
    } else {
      OtherTextsStart(r);
      StartsApart(r.Text());
    }
  }

  function Applied(accepts: Policy, s: SessionState, command: Command): (SessionState, Response)
  {
    match command
    case Id(n) => (s.(draft := s.draft.(nodeId := n)), Done)
    case Wifi(ssid, password) => (s.(draft := s.draft.(wifiSsid := ssid, wifiPassword := password)), Done)
    case Broker(host, port) => (s.(draft := s.draft.(brokerHost := host, brokerPort := port)), Done)
    case TurnoutAddress(channel, address) =>
      if channel < 1 || channel > |s.draft.channels| then (s, NoSuchChannel(|s.draft.channels|))
      else (s.(draft := s.draft.WithChannelAddress(channel, address)), Done)
    case Show => (s, Shown(s.draft))
    case Save =>
      if |Errors(s.draft)| > 0 then (s, NotValid(Errors(s.draft)))
      else if !accepts(|s.handed|) then (s.(handed := s.handed + [s.draft]), SaveFailed)
      else (s.(handed := s.handed + [s.draft], stored := s.draft), Saved)
    case Reboot => (s.(rebootRequested := true), Rebooting)
    case Invalid(complaint) => (s, NotUnderstood(complaint))
  }

  class CommissioningSession {
    const store: ConfigStore
    var draft: Config
    var rebootRequested: bool

    function State(): SessionState
      reads this, store
    {
      SessionState(draft, rebootRequested, store.stored, store.handed)
    }

    constructor (store: ConfigStore)
      ensures this.store == store
      ensures State() == SessionState(store.stored, false, store.stored, store.handed)
    {
      this.store := store;
      draft, rebootRequested := store.stored, false;
    }

    method Apply(command: Command) returns (response: Response)
      modifies this, store
      ensures (State(), response) == Applied(store.accepts, old(State()), command)
    {
      match command {
        case Id(n) =>
          draft := draft.(nodeId := n);
          response := Done;
        case Wifi(ssid, password) =>
          draft := draft.(wifiSsid := ssid, wifiPassword := password);
          response := Done;
        case Broker(host, port) =>
          draft := draft.(brokerHost := host, brokerPort := port);
          response := Done;
        case TurnoutAddress(channel, address) =>
          if channel < 1 || channel > |draft.channels| {
            response := NoSuchChannel(|draft.channels|);
          } else {
            draft := draft.WithChannelAddress(channel, address);
            response := Done;
          }
        case Show =>
          response := Shown(draft);
        case Save =>
          var errors := Validate(draft);
          if |errors| > 0 {
            response := NotValid(errors);
          } else {
            var ok := store.Save(draft);
            response := if ok then Saved else SaveFailed;
          }
        case Reboot =>
          rebootRequested := true;
          response := Rebooting;
        case Invalid(complaint) =>
          response := NotUnderstood(complaint);
      }
    }
  }

  // --------------------------------------------------------------- web form

  datatype Form = Form(
    nodeId: string, wifiSsid: string, wifiPassword: string,
    brokerHost: string, brokerPort: string, channels: seq<string>)

  /** A command line, as the form handler builds it. */
  function IdLine(text: string): string { "id" + (" " + text) }

  function BrokerLine(host: string, port: string): string { "broker" + (" " + (host + (" " + port))) }

  function TurnoutLine(i: nat, address: string): string
  {
    "turnout" + (" " + (ToText(i + 1) + (" " + ("address" + (" " + address)))))
  }

  function OrZero(text: string): string { if text == "" then "0" else text }

  function BlankIfZero(n: int): string { if n == 0 then "" else ToText(n) }

  /** The commands of the form's channels, a blank address standing for 0. */
  function ChannelCommands(form: Form): (commands: seq<Command>)
    ensures |commands| == |form.channels|
  {
    seq(|form.channels|, i requires 0 <= i < |form.channels| => Parse(TurnoutLine(i, OrZero(form.channels[i]))))
  }

  /** The first n commands in order, each only if those before said Done. */
  function AppliedWhileOk(accepts: Policy, s: SessionState, commands: seq<Command>, n: nat): (SessionState, Response)
    requires n <= |commands|
  {
    if n == 0 then (s, Done)
    else
      var (t, response) := AppliedWhileOk(accepts, s, commands, n - 1);
      if response != Done then (t, response) else Applied(accepts, t, commands[n - 1])
  }

  /** The commands of a submission, in order; a blank password keeps the draft's. */
  datatype Submission = Submission(id: Command, ssid: string, password: string, broker: Command, channels: seq<Command>)

  function Fields(accepts: Policy, s: SessionState, f: Submission): (SessionState, Response)
  {
    var (t, response) := Applied(accepts, s, f.id);
    if response != Done then (t, response)
    else
      var password := if f.password == "" then t.draft.wifiPassword else f.password;
      var (u, response') := Applied(accepts, t, Wifi(f.ssid, password));
      if response' != Done then (u, response') else Applied(accepts, u, f.broker)
  }

  function AllApplied(accepts: Policy, s: SessionState, f: Submission): (SessionState, Response)
  {
    var (t, response) := Fields(accepts, s, f);
    if response != Done then (t, response)
    else
      var (u, response') := AppliedWhileOk(accepts, t, f.channels, |f.channels|);
      if response' != Done then (u, response') else SaveApplied(accepts, u)
  }

  /** The end of a submission: the draft is saved, and then the node restarts. */
  function SaveApplied(accepts: Policy, s: SessionState): (SessionState, Response)
  {
    var (t, response) := Applied(accepts, s, Save);
    if response != Saved then (t, response) else Applied(accepts, t, Reboot)
  }

  function SubmissionOf(form: Form): Submission
  {
    Submission(Parse(IdLine(form.nodeId)), form.wifiSsid, form.wifiPassword,
               Parse(BrokerLine(form.brokerHost, form.brokerPort)), ChannelCommands(form))
  }

  function Submitted(accepts: Policy, s: SessionState, form: Form): (SessionState, Response)
  {
    AllApplied(accepts, s, SubmissionOf(form))
  }

  function ChannelTexts(channels: seq<int>): (texts: seq<string>)
    ensures |texts| == |channels| && forall i :: 0 <= i < |texts| ==> texts[i] == BlankIfZero(channels[i])
  {
    seq(|channels|, i requires 0 <= i < |channels| => BlankIfZero(channels[i]))
  }

  function FormOf(c: Config): Form
  {
    Form(BlankIfZero(c.nodeId), c.wifiSsid, "", c.brokerHost, ToText(c.brokerPort), ChannelTexts(c.channels))
  }

  class WebFormCommissioningAdapter {
    const session: CommissioningSession

    constructor (session: CommissioningSession)
      ensures this.session == session
    {
      this.session := session;
    }

    method Submit(form: Form) returns (response: Response)
      modifies session, session.store
      ensures (session.State(), response) == Submitted(session.store.accepts, old(session.State()), form)
    {
      response := SubmitFields(form);
      if response != Done { return; }

      response := SubmitChannels(form);
      if response != Done { return; }

      ParseKeyword();
      response := session.Apply(Parse("save"));
      if response != Saved { return; }

      response := session.Apply(Parse("reboot"));
    }

    method SubmitFields(form: Form) returns (response: Response)
      modifies session, session.store
      ensures (session.State(), response)
              == Fields(session.store.accepts, old(session.State()), SubmissionOf(form))
    {
      response := session.Apply(Parse(IdLine(form.nodeId)));
      if response != Done { return; }

      var password := if form.wifiPassword == "" then session.draft.wifiPassword else form.wifiPassword;
      response := session.Apply(Wifi(form.wifiSsid, password));
      if response != Done { return; }

      response := session.Apply(Parse(BrokerLine(form.brokerHost, form.brokerPort)));
    }

    method SubmitChannels(form: Form) returns (response: Response)
      modifies session, session.store
      ensures (session.State(), response)
              == AppliedWhileOk(session.store.accepts, old(session.State()), ChannelCommands(form), |form.channels|)
    {
      ghost var start, commands := session.State(), ChannelCommands(form);
      response := Done;
      for i := 0 to |form.channels|
        invariant (session.State(), response) == AppliedWhileOk(session.store.accepts, start, commands, i)
        invariant response == Done
      {
        response := session.Apply(Parse(TurnoutLine(i, OrZero(form.channels[i]))));
        if response != Done {
          StaysRefused(session.store.accepts, start, commands, i + 1, |form.channels|);
          return;
        }
      }
    }

    method CurrentValues() returns (form: Form)
      ensures form == FormOf(session.draft) && form.wifiPassword == ""
    {
      var config := session.draft;
      var channels: seq<string> := [];
      ghost var texts := ChannelTexts(config.channels);
      for i := 0 to |config.channels|
        invariant channels == texts[..i]
      {
        channels := channels + [BlankIfZero(config.channels[i])];
      }
      assert channels == texts;
      form := Form(BlankIfZero(config.nodeId), config.wifiSsid, "", config.brokerHost,
                   ToText(config.brokerPort), channels);
    }
  }

  lemma {:induction false} StaysRefused(accepts: Policy, s: SessionState, commands: seq<Command>, i: nat, n: nat)
    requires i <= n <= |commands| && AppliedWhileOk(accepts, s, commands, i).1 != Done
    ensures AppliedWhileOk(accepts, s, commands, n) == AppliedWhileOk(accepts, s, commands, i)
    decreases n
  {
    if i < n {
      StaysRefused(accepts, s, commands, i, n - 1);
    }
  }

  // --------------------------------------- what the lines of the form parse to

  lemma Verbs()
    ensures VerbOf("id") == IdVerb && VerbOf("broker") == BrokerVerb && VerbOf("turnout") == TurnoutVerb
    ensures VerbOf("save") == SaveVerb && VerbOf("reboot") == RebootVerb
  {
    assert "broker"[0] != "id"[0] && "broker"[0] != "wifi"[0];
    assert "turnout"[0] != "id"[0] && "turnout"[0] != "wifi"[0] && "turnout"[0] != "broker"[0];
    assert "save"[0] == 's' && "save"[1] != "show"[1];
    assert "reboot"[0] == 'r';
  }

  lemma WordsAreWords()
    ensures SpaceFree("id") && SpaceFree("broker") && SpaceFree("turnout") && SpaceFree("address")
    ensures SpaceFree("save") && SpaceFree("reboot")
  {}

  lemma FirstThreeTokens(a: string, b: string, c: string, rest: string)
    requires a != [] && b != [] && c != [] && SpaceFree(a) && SpaceFree(b) && SpaceFree(c)
    ensures var tokens := Tokens(a + (" " + (b + (" " + (c + (" " + rest))))));
            && |tokens| == 3 + |Tokens(rest)| && tokens[3..] == Tokens(rest)
            && tokens[0] == a && tokens[1] == b && tokens[2] == c
  {
    var last := c + (" " + rest);
    FirstToken(c, rest);
    FirstToken(b, last);
    FirstToken(a, b + (" " + last));
    ThreeInFront(a, b, c, Tokens(rest));
  }

  lemma ThreeInFront(a: string, b: string, c: string, rest: seq<string>)
    ensures var tokens := [a] + ([b] + ([c] + rest));
            |tokens| == 3 + |rest| && tokens[3..] == rest && tokens[0] == a && tokens[1] == b && tokens[2] == c
  {}

  lemma ParseIdLine(text: string)
    ensures Tokens(IdLine(text)) == ["id"] + Tokens(text)
    ensures Parse(IdLine(text)).Id? || Parse(IdLine(text)).Invalid?
  {
    Verbs();
    WordsAreWords();
    FirstToken("id", text);
  }

  lemma ParseBroker(line: string)
    requires Tokens(line) != [] && Tokens(line)[0] == "broker"
    ensures Parse(line) == BrokerCommand(Tokens(line))
    ensures Parse(line).Invalid? || (Parse(line).Broker? && SpaceFree(Parse(line).host))
  {
    Verbs();
    var command := BrokerCommand(Tokens(line));
    assert command.Invalid? || (command.Broker? && command.host == Tokens(line)[1]);
  }

  /** Whatever was typed, the line is what it sets out to be or is refused; and
      a host that is taken contains no white space. */
  lemma ParseBrokerLine(host: string, port: string)
    ensures Tokens(BrokerLine(host, port)) == ["broker"] + Tokens(host + (" " + port))
    ensures var c := Parse(BrokerLine(host, port));
            && c == BrokerCommand(Tokens(BrokerLine(host, port)))
            && (c.Invalid? || (c.Broker? && SpaceFree(c.host)))
  {
    WordsAreWords();
    FirstToken("broker", host + (" " + port));
    assert Tokens(BrokerLine(host, port))[0] == "broker";
    ParseBroker(BrokerLine(host, port));
  }

  /** The tokens of a channel's line; the verb and the word between the numbers
      are what the parser looks for. */
  lemma TurnoutTokens(i: nat, address: string)
    ensures var tokens := Tokens(TurnoutLine(i, address));
            && |tokens| == 3 + |Tokens(address)| && tokens[3..] == Tokens(address)
            && tokens[0] == "turnout" && tokens[1] == ToText(i + 1) && tokens[2] == "address"
  {
    WordsAreWords();
    FirstThreeTokens("turnout", ToText(i + 1), "address", address);
  }

  lemma ParseTurnout(line: string)
    requires Tokens(line) != [] && Tokens(line)[0] == "turnout"
    ensures Parse(line) == TurnoutAddressCommand(Tokens(line))
    ensures Parse(line).TurnoutAddress? || Parse(line).Invalid?
  {
    Verbs();
    var command := TurnoutAddressCommand(Tokens(line));
    assert command.TurnoutAddress? || command.Invalid?;
  }

  lemma ParseTurnoutLine(i: nat, address: string)
    ensures var c := Parse(TurnoutLine(i, address)); c.TurnoutAddress? || c.Invalid?
  {
    TurnoutTokens(i, address);
    ParseTurnout(TurnoutLine(i, address));
  }

  /** Printed numbers are read back. */
  lemma ParseIdPrinted(n: int)
    requires INT_MIN <= n <= INT_MAX
    ensures Parse(IdLine(ToText(n))) == Id(n)
  {
    Verbs();
    ParseIdLine(ToText(n));
    OnlyToken(ToText(n));
    ParsePrinted(n);
  }

  lemma BrokerTokens(host: string, port: string)
    requires host != "" && SpaceFree(host) && port != "" && SpaceFree(port)
    ensures var tokens := Tokens(BrokerLine(host, port)); |tokens| == 3 && tokens[1] == host && tokens[2] == port
  {
    ParseBrokerLine(host, port);
    FirstToken(host, port);
    OnlyToken(port);
  }

  lemma BrokerTokensRead(tokens: seq<string>, host: string, port: int)
    requires |tokens| == 3 && tokens[1] == host && ParseInt(tokens[2]) == Some(port)
    ensures BrokerCommand(tokens) == Broker(host, port)
  {}

  lemma ParseBrokerPrinted(host: string, port: int)
    requires INT_MIN <= port <= INT_MAX && host != "" && SpaceFree(host)
    ensures Parse(BrokerLine(host, ToText(port))) == Broker(host, port)
  {
    ParseBrokerLine(host, ToText(port));
    BrokerTokens(host, ToText(port));
    ParsePrinted(port);
    BrokerTokensRead(Tokens(BrokerLine(host, ToText(port))), host, port);
  }

  lemma TurnoutTokensRead(tokens: seq<string>, channel: int, address: int)
    requires |tokens| == 4 && tokens[2] == "address"
    requires ParseInt(tokens[1]) == Some(channel) && ParseInt(tokens[3]) == Some(address)
    ensures TurnoutAddressCommand(tokens) == TurnoutAddress(channel, address)
  {}

  lemma ParsePrintedTokens(line: string, channel: int, address: int)
    requires INT_MIN <= channel <= INT_MAX && INT_MIN <= address <= INT_MAX
    requires |Tokens(line)| == 4 && Tokens(line)[0] == "turnout" && Tokens(line)[1] == ToText(channel)
    requires Tokens(line)[2] == "address" && Tokens(line)[3] == ToText(address)
    ensures Parse(line) == TurnoutAddress(channel, address)
  {
    ParseTurnout(line);
    ParsePrinted(channel);
    ParsePrinted(address);
    TurnoutTokensRead(Tokens(line), channel, address);
  }

  lemma ParseTurnoutPrinted(i: nat, address: int)
    requires i < INT_MAX && INT_MIN <= address <= INT_MAX
    ensures Parse(TurnoutLine(i, ToText(address))) == TurnoutAddress(i + 1, address)
  {
    var line := TurnoutLine(i, ToText(address));
    TurnoutTokens(i, ToText(address));
    OnlyToken(ToText(address));
    assert Tokens(line)[3] == Tokens(line)[3..][0];
    ParsePrintedTokens(line, i + 1, address);
  }

  lemma ParseKeyword()
    ensures Parse("save") == Save && Parse("reboot") == Reboot
  {
    Verbs();
    WordsAreWords();
    OnlyToken("save");
    OnlyToken("reboot");
  }

  // ------------------------------------------------------------- round trip

  /** Writing channel addresses one by one copies them all. */
  lemma {:induction false} ChannelsTransferred(accepts: Policy, s: SessionState, addresses: seq<int>,
                                               commands: seq<Command>, n: nat)
    requires n <= |addresses| == |commands| == |s.draft.channels|
    requires forall i :: 0 <= i < |commands| ==> commands[i] == TurnoutAddress(i + 1, addresses[i])
    ensures AppliedWhileOk(accepts, s, commands, n) == (Transferred(s, addresses, n), Done)
    decreases n
  {
    if n == 0 {
      assert addresses[..0] + s.draft.channels[0..] == s.draft.channels;
    } else {
      ChannelsTransferred(accepts, s, addresses, commands, n - 1);
      ChannelApplied(accepts, Transferred(s, addresses, n - 1), n - 1, addresses[n - 1]);
      OneMoreCopied(s.draft.channels, addresses, n - 1);
    }
  }

  /** The draft has got its first n channel addresses. */
  function Transferred(s: SessionState, addresses: seq<int>, n: nat): SessionState
    requires n <= |addresses| == |s.draft.channels|
  {
    s.(draft := s.draft.(channels := addresses[..n] + s.draft.channels[n..]))
  }

  lemma ChannelApplied(accepts: Policy, s: SessionState, i: nat, address: int)
    requires i < |s.draft.channels|
    ensures Applied(accepts, s, TurnoutAddress(i + 1, address))
            == (s.(draft := s.draft.(channels := s.draft.channels[i := address])), Done)
  {}

  lemma OneMoreCopied(before: seq<int>, after: seq<int>, i: nat)
    requires i < |after| == |before|
    ensures (after[..i] + before[i..])[i := after[i]] == after[..i + 1] + before[i + 1..]
  {}

  lemma ChannelCommandPrinted(c: Config, i: nat)
    requires i < |c.channels| <= INT_MAX && INT_MIN <= c.channels[i] <= INT_MAX
    ensures ChannelCommands(FormOf(c))[i] == TurnoutAddress(i + 1, c.channels[i])
  {
    BlankReadsAsZero(c.channels[i]);
    ParseTurnoutPrinted(i, c.channels[i]);
  }

  lemma BlankReadsAsZero(n: int)
    ensures OrZero(BlankIfZero(n)) == ToText(n)
  {}

  /** What a form filled in from configuration c does to any session: the draft
      becomes c, except that a blank password keeps the draft's, and is stored. */
  lemma FormTransfers(accepts: Policy, s: SessionState, c: Config)
    requires c.Valid() && SpaceFree(c.brokerHost)
    requires |c.channels| == |s.draft.channels| <= INT_MAX
    requires accepts(|s.handed|)
    ensures var d := c.(wifiPassword := s.draft.wifiPassword);
            Submitted(accepts, s, FormOf(c)) == (SessionState(d, true, d, s.handed + [d]), Rebooting)
  {
    var d := c.(wifiPassword := s.draft.wifiPassword);
    var t := s.(draft := d.(channels := s.draft.channels));
    FieldsTransferred(accepts, s, c);
    var commands := ChannelCommands(FormOf(c));
    forall i | 0 <= i < |commands| ensures commands[i] == TurnoutAddress(i + 1, c.channels[i]) {
      ChannelCommandPrinted(c, i);
    }
    ChannelsTransferred(accepts, t, c.channels, commands, |c.channels|);
    assert c.channels[..|c.channels|] + t.draft.channels[|c.channels|..] == c.channels;
    SavedAndRebooted(accepts, s, SubmissionOf(FormOf(c)), t, d);
  }

  lemma SavedAndRebooted(accepts: Policy, s: SessionState, f: Submission, t: SessionState, d: Config)
    requires Fields(accepts, s, f) == (t, Done) && d.Valid() && accepts(|t.handed|)
    requires AppliedWhileOk(accepts, t, f.channels, |f.channels|) == (t.(draft := d), Done)
    ensures AllApplied(accepts, s, f) == (SessionState(d, true, d, t.handed + [d]), Rebooting)
  {
    SaveAccepted(accepts, t.(draft := d));
  }

  lemma SaveAccepted(accepts: Policy, s: SessionState)
    requires s.draft.Valid() && accepts(|s.handed|)
    ensures SaveApplied(accepts, s) == (SessionState(s.draft, true, s.draft, s.handed + [s.draft]), Rebooting)
  {
    NoErrorsIffValid(s.draft);
  }

  lemma FieldsTransferred(accepts: Policy, s: SessionState, c: Config)
    requires c.Valid() && SpaceFree(c.brokerHost)
    ensures Fields(accepts, s, SubmissionOf(FormOf(c)))
            == (s.(draft := c.(wifiPassword := s.draft.wifiPassword, channels := s.draft.channels)), Done)
  {
    ParseIdPrinted(c.nodeId);
    ParseBrokerPrinted(c.brokerHost, c.brokerPort);
  }

  /** The commands of a form are of the kinds that the form sets out to send. */
  ghost predicate FormKinds(f: Submission)
  {
    && (f.id.Id? || f.id.Invalid?)
    && (f.broker.Invalid? || (f.broker.Broker? && SpaceFree(f.broker.host)))
    && forall i :: 0 <= i < |f.channels| ==> f.channels[i].TurnoutAddress? || f.channels[i].Invalid?
  }

  lemma FormKindsHold(form: Form)
    ensures FormKinds(SubmissionOf(form))
  {
    ParseIdLine(form.nodeId);
    ParseBrokerLine(form.brokerHost, form.brokerPort);
    forall i | 0 <= i < |form.channels|
      ensures ChannelCommands(form)[i].TurnoutAddress? || ChannelCommands(form)[i].Invalid?
    {
      ParseTurnoutLine(i, OrZero(form.channels[i]));
    }
  }

  /** Channel commands change nothing but the draft's channels. */
  lemma {:induction false} ChannelsOnly(accepts: Policy, s: SessionState, commands: seq<Command>, n: nat)
    requires n <= |commands|
    requires forall i :: 0 <= i < n ==> commands[i].TurnoutAddress? || commands[i].Invalid?
    ensures var (t, response) := AppliedWhileOk(accepts, s, commands, n);
            t == s.(draft := s.draft.(channels := t.draft.channels)) && !response.Rebooting? && !response.Saved?
    decreases n
  {
    if n > 0 { ChannelsOnly(accepts, s, commands, n - 1); }
  }

  /** What a submission can do to the store, by its answer. */
  ghost predicate Outcome(accepts: Policy, s: SessionState, t: SessionState, response: Response)
  {
    && (response == Rebooting <==> t.handed == s.handed + [t.draft] && accepts(|s.handed|))
    && (response == Rebooting ==> t.draft.Valid() && t.stored == t.draft && t.rebootRequested
                                  && SpaceFree(t.draft.brokerHost))
    && (response != Rebooting ==> t.stored == s.stored && t.rebootRequested == s.rebootRequested)
    && (t.handed == s.handed || (t.handed == s.handed + [t.draft] && t.draft.Valid()))
  }

  lemma FieldsOutcome(accepts: Policy, s: SessionState, f: Submission)
    requires FormKinds(f)
    ensures var (t, response) := Fields(accepts, s, f);
            && t == s.(draft := t.draft) && response != Rebooting
            && (response == Done ==> SpaceFree(t.draft.brokerHost))
  {}

  lemma SavingOutcome(accepts: Policy, s: SessionState, u: SessionState)
    requires u == s.(draft := u.draft) && SpaceFree(u.draft.brokerHost)
    ensures Outcome(accepts, s, SaveApplied(accepts, u).0, SaveApplied(accepts, u).1)
  {
    NoErrorsIffValid(u.draft);
  }

  lemma RefusedOutcome(accepts: Policy, s: SessionState, t: SessionState, response: Response)
    requires t == s.(draft := t.draft) && response != Rebooting
    ensures Outcome(accepts, s, t, response)
  {
    assert |t.handed| < |s.handed + [t.draft]|;
  }

  lemma AllAppliedOutcome(accepts: Policy, s: SessionState, f: Submission)
    requires FormKinds(f)
    ensures var (t, response) := AllApplied(accepts, s, f); Outcome(accepts, s, t, response)
  {
    FieldsOutcome(accepts, s, f);
    var (t, response) := Fields(accepts, s, f);
    if response != Done {
      RefusedOutcome(accepts, s, t, response);
    } else {
      ChannelsOutcome(accepts, s, t, f.channels);
      var (u, response') := AppliedWhileOk(accepts, t, f.channels, |f.channels|);
      if response' != Done { RefusedOutcome(accepts, s, u, response'); } else { SavingOutcome(accepts, s, u); }
    }
  }

  lemma ChannelsOutcome(accepts: Policy, s: SessionState, t: SessionState, commands: seq<Command>)
    requires t == s.(draft := t.draft)
    requires forall i :: 0 <= i < |commands| ==> commands[i].TurnoutAddress? || commands[i].Invalid?
    ensures var (u, response) := AppliedWhileOk(accepts, t, commands, |commands|);
            u == s.(draft := u.draft) && response != Rebooting && u.draft.brokerHost == t.draft.brokerHost
  {
    ChannelsOnly(accepts, t, commands, |commands|);
  }

  /** The whole effect of a submission on the store: it answers "rebooting" exactly
      if the configuration it made up was valid and saved, and then that is what
      is stored; otherwise the store holds what it held. */
  lemma SubmissionOutcome(accepts: Policy, s: SessionState, form: Form)
    ensures Outcome(accepts, s, Submitted(accepts, s, form).0, Submitted(accepts, s, form).1)
  {
    FormKindsHold(form);
    AllAppliedOutcome(accepts, s, SubmissionOf(form));
  }

  /** Submitting the current values is an identity on the draft, and stores it,
      exactly when the draft's broker host contains no white space. */
  lemma RoundTrip(accepts: Policy, s: SessionState)
    requires s.draft.Valid() && |s.draft.channels| <= INT_MAX && accepts(|s.handed|)
    ensures SpaceFree(s.draft.brokerHost) <==>
            Submitted(accepts, s, FormOf(s.draft))
            == (SessionState(s.draft, true, s.draft, s.handed + [s.draft]), Rebooting)
  {
    if SpaceFree(s.draft.brokerHost) {
      FormTransfers(accepts, s, s.draft);
    }
    SubmissionOutcome(accepts, s, FormOf(s.draft));
  }

  // ------------------------------------------------- what a form stores

  /** The text is a single word, and the word this number. */
  ghost predicate ReadsAs(text: string, n: int)
  {
    |Tokens(text)| == 1 && ParseInt(Tokens(text)[0]) == Some(n)
  }

  /** The configuration says what the form says; a blank password stands for the
      former one, a blank address for none. */
  ghost predicate AsTyped(c: Config, form: Form, formerPassword: string)
  {
    && ReadsAs(form.nodeId, c.nodeId)
    && c.wifiSsid == form.wifiSsid
    && c.wifiPassword == (if form.wifiPassword == "" then formerPassword else form.wifiPassword)
    && BrokerAsTyped(c.brokerHost, c.brokerPort, form)
    && |c.channels| == |form.channels|
    && forall i :: 0 <= i < |c.channels| ==> AddressAsTyped(c.channels[i], form.channels[i])
  }

  ghost predicate AddressAsTyped(address: int, text: string)
  {
    if text == "" then address == 0 else ReadsAs(text, address)
  }

  /** Host and port are what the two fields say side by side; a host without
      white space is taken as it is. */
  ghost predicate BrokerAsTyped(host: string, port: int, form: Form)
  {
    && (var words := Tokens(form.brokerHost + (" " + form.brokerPort));
        |words| == 2 && words[0] == host && ParseInt(words[1]) == Some(port))
    && (form.brokerHost != "" && SpaceFree(form.brokerHost) ==>
          host == form.brokerHost && ReadsAs(form.brokerPort, port))
  }

  lemma PrintedReads(n: int)
    requires INT_MIN <= n <= INT_MAX
    ensures ToText(n) != "" && ReadsAs(ToText(n), n)
  {
    OnlyToken(ToText(n));
    ParsePrinted(n);
  }

  /** The form filled in from a configuration says what that says: a node id or an
      address of 0 is blank, a port is always there, the password never. */
  lemma FormSays(c: Config)
    requires INT_MIN <= c.nodeId <= INT_MAX && INT_MIN <= c.brokerPort <= INT_MAX
    requires forall i :: 0 <= i < |c.channels| ==> INT_MIN <= c.channels[i] <= INT_MAX
    ensures var form := FormOf(c);
            && (if c.nodeId == 0 then form.nodeId == "" else ReadsAs(form.nodeId, c.nodeId))
            && form.wifiSsid == c.wifiSsid && form.wifiPassword == ""
            && form.brokerHost == c.brokerHost && ReadsAs(form.brokerPort, c.brokerPort)
            && |form.channels| == |c.channels|
            && forall i :: 0 <= i < |c.channels| ==>
                 if c.channels[i] == 0 then form.channels[i] == "" else ReadsAs(form.channels[i], c.channels[i])
  {
    PrintedReads(c.nodeId);
    PrintedReads(c.brokerPort);
    forall i | 0 <= i < |c.channels| ensures ReadsAs(ToText(c.channels[i]), c.channels[i]) {
      PrintedReads(c.channels[i]);
    }
  }

  lemma IdReads(text: string)
    ensures var c := Parse(IdLine(text)); c.Id? ==> ReadsAs(text, c.n)
  {
    var c := Parse(IdLine(text));
    ParseIdLine(text);
    if c.Id? { ParseExactly(IdLine(text), c); }
  }

  lemma BrokerReads(form: Form)
    ensures var c := Parse(BrokerLine(form.brokerHost, form.brokerPort));
            c.Broker? ==> BrokerAsTyped(c.host, c.port, form)
  {
    var line := BrokerLine(form.brokerHost, form.brokerPort);
    var c := Parse(line);
    ParseBrokerLine(form.brokerHost, form.brokerPort);
    if c.Broker? {
      ParseExactly(line, c);
      if form.brokerHost != "" && SpaceFree(form.brokerHost) { FirstToken(form.brokerHost, form.brokerPort); }
    }
  }

  lemma TurnoutReads(i: nat, text: string)
    requires i < INT_MAX
    ensures var c := Parse(TurnoutLine(i, OrZero(text)));
            c.TurnoutAddress? ==> c.channel == i + 1 && AddressAsTyped(c.address, text)
  {
    var line := TurnoutLine(i, OrZero(text));
    var c := Parse(line);
    TurnoutTokens(i, OrZero(text));
    ParsePrinted(i + 1);
    if c.TurnoutAddress? {
      ParseExactly(line, c);
      assert Tokens(line)[3] == Tokens(line)[3..][0];
      if text == "" { ZeroReads(); }
    }
  }

  lemma ZeroReads()
    ensures Tokens("0") == ["0"] && ParseInt("0") == Some(0)
  {
    assert "0" == ToText(0);
    OnlyToken("0");
    ParsePrinted(0);
  }

  lemma FieldsTaken(accepts: Policy, s: SessionState, f: Submission)
    requires FormKinds(f) && Fields(accepts, s, f).1 == Done
    ensures f.id.Id? && f.broker.Broker?
    ensures Fields(accepts, s, f).0
            == s.(draft := Config(f.id.n, f.ssid, if f.password == "" then s.draft.wifiPassword else f.password,
                                  f.broker.host, f.broker.port, s.draft.channels))
  {}

  /** Commands for channels 1, 2, ..., all taken, set these addresses. */
  lemma {:induction false} ChannelsTaken(accepts: Policy, s: SessionState, commands: seq<Command>, n: nat)
    requires n <= |commands| == |s.draft.channels| && AppliedWhileOk(accepts, s, commands, n).1 == Done
    requires forall i :: 0 <= i < |commands| ==> commands[i].TurnoutAddress? || commands[i].Invalid?
    requires forall i :: 0 <= i < |commands| && commands[i].TurnoutAddress? ==> commands[i].channel == i + 1
    ensures var t := AppliedWhileOk(accepts, s, commands, n).0;
            && t == s.(draft := s.draft.(channels := t.draft.channels)) && |t.draft.channels| == |commands|
            && forall i :: 0 <= i < n ==> commands[i].TurnoutAddress? && t.draft.channels[i] == commands[i].address
    decreases n
  {
    if n > 0 {
      ChannelsTaken(accepts, s, commands, n - 1);
      var t := AppliedWhileOk(accepts, s, commands, n - 1).0;
      if commands[n - 1].TurnoutAddress? { ChannelApplied(accepts, t, n - 1, commands[n - 1].address); }
    }
  }

  lemma SavedWhenRebooting(accepts: Policy, u: SessionState)
    requires SaveApplied(accepts, u).1 == Rebooting
    ensures SaveApplied(accepts, u).0.stored == u.draft
  {}

  lemma AllTaken(accepts: Policy, s: SessionState, f: Submission)
    requires FormKinds(f) && |f.channels| == |s.draft.channels| && AllApplied(accepts, s, f).1 == Rebooting
    requires forall i :: 0 <= i < |f.channels| && f.channels[i].TurnoutAddress? ==> f.channels[i].channel == i + 1
    ensures f.id.Id? && f.broker.Broker?
    ensures var c := AllApplied(accepts, s, f).0.stored;
            && c.nodeId == f.id.n && c.wifiSsid == f.ssid
            && c.wifiPassword == (if f.password == "" then s.draft.wifiPassword else f.password)
            && c.brokerHost == f.broker.host && c.brokerPort == f.broker.port && |c.channels| == |f.channels|
            && forall i :: 0 <= i < |c.channels| ==>
                 f.channels[i].TurnoutAddress? && c.channels[i] == f.channels[i].address
  {
    FieldsOutcome(accepts, s, f);
    FieldsTaken(accepts, s, f);
    var t := Fields(accepts, s, f).0;
    ChannelsOutcome(accepts, t, t, f.channels);
    ChannelsTaken(accepts, t, f.channels, |f.channels|);
    SavedWhenRebooting(accepts, AppliedWhileOk(accepts, t, f.channels, |f.channels|).0);
  }

  /** Whatever was typed: if the node says that it restarts, the configuration it
      has stored is the one typed in. */
  lemma StoredAsTyped(accepts: Policy, s: SessionState, form: Form)
    requires |form.channels| == |s.draft.channels| <= INT_MAX && Submitted(accepts, s, form).1 == Rebooting
    ensures AsTyped(Submitted(accepts, s, form).0.stored, form, s.draft.wifiPassword)
  {
    FormKindsHold(form);
    forall i | 0 <= i < |form.channels|
      ensures var c := ChannelCommands(form)[i];
              c.TurnoutAddress? ==> c.channel == i + 1 && AddressAsTyped(c.address, form.channels[i])
    {
      TurnoutReads(i, form.channels[i]);
    }
    AllTaken(accepts, s, SubmissionOf(form));
    IdReads(form.nodeId);
    BrokerReads(form);
  }

  /** A channel command sets the address of a channel that exists, and nothing
      else; for any other channel it is refused. */
  lemma ChannelCommandExactly(accepts: Policy, s: SessionState, channel: int, address: int)
    ensures var (t, response) := Applied(accepts, s, TurnoutAddress(channel, address));
            if 1 <= channel <= |s.draft.channels|
            then && response == Done && t == s.(draft := s.draft.(channels := t.draft.channels))
                 && |t.draft.channels| == |s.draft.channels| && t.draft.channels[channel - 1] == address
                 && forall i :: 0 <= i < |s.draft.channels| && i != channel - 1 ==>
                      t.draft.channels[i] == s.draft.channels[i]
            else t == s && response == NoSuchChannel(|s.draft.channels|)
  {}

  // -------------------------------------------------------------- histories

  datatype BootMode = WirelessSetup | Normal | NeedsCommissioning

  method SelectBootMode(config: Config, wirelessSetupRequested: bool) returns (mode: BootMode)
    ensures mode == BootModeOf(config, wirelessSetupRequested)
    ensures mode == WirelessSetup <==> wirelessSetupRequested
    ensures mode == Normal <==> !wirelessSetupRequested && config.Valid()
    ensures mode == NeedsCommissioning <==> !wirelessSetupRequested && !config.Valid()
  {
    if wirelessSetupRequested {
      return WirelessSetup;
    }
    var errors := Validate(config);
    return if |errors| == 0 then Normal else NeedsCommissioning;
  }

  function BootModeOf(config: Config, wirelessSetupRequested: bool): BootMode
  {
    if wirelessSetupRequested then WirelessSetup
    else if |Errors(config)| == 0 then Normal else NeedsCommissioning
  }

  /** What can happen to a node: a line on the serial port, a form submission,
      or a restart, which loads the stored configuration into a new session. */
  datatype Event = Line(text: string) | FormSent(form: Form) | Restart

  function Next(accepts: Policy, s: SessionState, e: Event): SessionState
  {
    match e
    case Line(text) => Applied(accepts, s, Parse(text)).0
    case FormSent(form) => Submitted(accepts, s, form).0
    case Restart => SessionState(s.stored, false, s.stored, s.handed)
  }

  function After(accepts: Policy, s: SessionState, events: seq<Event>): SessionState
  {
    if events == [] then s else Next(accepts, After(accepts, s, events[..|events| - 1]), events[|events| - 1])
  }

  /** The last configuration that was accepted, among those handed over from the
      n-th on, or else the initial one. */
  function LastAccepted(accepts: Policy, handed: seq<Config>, n: nat, initial: Config): Config
    requires n <= |handed|
    decreases |handed|
  {
    if |handed| == n then initial
    else if accepts(|handed| - 1) then handed[|handed| - 1]
    else LastAccepted(accepts, handed[..|handed| - 1], n, initial)
  }

  /** Every configuration handed to the store is valid, and the store holds the
      last of them that it accepted. */
  ghost predicate StoreFaithful(accepts: Policy, s: SessionState, t: SessionState)
  {
    && s.handed <= t.handed
    && (forall i :: |s.handed| <= i < |t.handed| ==> t.handed[i].Valid())
    && t.stored == LastAccepted(accepts, t.handed, |s.handed|, s.stored)
  }

  /** The store was left alone, or was handed one valid configuration. */
  ghost predicate StoreStep(accepts: Policy, s: SessionState, t: SessionState)
  {
    || (t.handed == s.handed && t.stored == s.stored)
    || (|t.handed| == |s.handed| + 1 && t.handed[..|s.handed|] == s.handed && t.handed[|s.handed|].Valid()
        && t.stored == if accepts(|s.handed|) then t.handed[|s.handed|] else s.stored)
  }

  lemma FaithfulStep(accepts: Policy, s: SessionState, t: SessionState, u: SessionState)
    requires StoreFaithful(accepts, s, t) && StoreStep(accepts, t, u)
    ensures StoreFaithful(accepts, s, u)
  {}

  lemma CommandStep(accepts: Policy, s: SessionState, command: Command)
    ensures StoreStep(accepts, s, Applied(accepts, s, command).0)
  {
    NoErrorsIffValid(s.draft);
  }

  lemma NextStep(accepts: Policy, s: SessionState, e: Event)
    ensures StoreStep(accepts, s, Next(accepts, s, e))
  {
    match e {
      case Line(text) => CommandStep(accepts, s, Parse(text));
      case FormSent(form) => SubmissionOutcome(accepts, s, form);
      case Restart =>
    }
  }

  /** Over any history of serial lines, form submissions and restarts, only valid
      configurations reach the store, which always holds the last accepted one. */
  lemma {:induction false} HistoryIsFaithful(accepts: Policy, s: SessionState, events: seq<Event>)
    ensures StoreFaithful(accepts, s, After(accepts, s, events))
    decreases |events|
  {
    if events != [] {
      var n := |events| - 1;
      HistoryIsFaithful(accepts, s, events[..n]);
      var t := After(accepts, s, events[..n]);
      NextStep(accepts, t, events[n]);
      FaithfulStep(accepts, s, t, Next(accepts, t, events[n]));
    }
  }

  lemma {:induction false} LastAcceptedIsHanded(accepts: Policy, handed: seq<Config>, n: nat, initial: Config, i: nat)
    requires n <= i < |handed| && accepts(i)
    ensures exists j :: n <= j < |handed| && LastAccepted(accepts, handed, n, initial) == handed[j]
    decreases |handed|
  {
    var m := |handed| - 1;
    if accepts(m) {
      assert LastAccepted(accepts, handed, n, initial) == handed[m];
    } else {
      LastAcceptedIsHanded(accepts, handed[..m], n, initial, i);
      var j :| n <= j < m && LastAccepted(accepts, handed[..m], n, initial) == handed[..m][j];
      assert handed[..m][j] == handed[j];
    }
  }

  /** After any successful save in its history, a node boots into normal mode,
      unless wireless setup was requested. */
  lemma BootsNormallyOnceSaved(accepts: Policy, s: SessionState, events: seq<Event>, i: nat,
                               wirelessSetupRequested: bool)
    requires |s.handed| <= i < |After(accepts, s, events).handed| && accepts(i)
    ensures BootModeOf(After(accepts, s, events).stored, wirelessSetupRequested)
            == if wirelessSetupRequested then WirelessSetup else Normal
  {
    var t := After(accepts, s, events);
    HistoryIsFaithful(accepts, s, events);
    LastAcceptedIsHanded(accepts, t.handed, |s.handed|, s.stored, i);
    NoErrorsIffValid(t.stored);
  }

  // ---------------------------------------------- hosts without white space

  ghost predicate HostsSpaceFree(s: SessionState)
  {
    SpaceFree(s.draft.brokerHost) && SpaceFree(s.stored.brokerHost)
  }

  /** A host comes from a token, whatever the line. */
  lemma ParsedHostIsSpaceFree(line: string)
    ensures var c := Parse(line); c.Broker? ==> SpaceFree(c.host)
  {
    HostIsAToken(Tokens(line));
  }

  lemma HostIsAToken(tokens: seq<string>)
    ensures var c := Interpreted(tokens); c.Broker? ==> |tokens| == 3 && c.host == tokens[1]
  {}

  lemma CommandKeepsHosts(accepts: Policy, s: SessionState, command: Command)
    requires HostsSpaceFree(s) && (command.Broker? ==> SpaceFree(command.host))
    ensures HostsSpaceFree(Applied(accepts, s, command).0)
  {}

  lemma SubmissionKeepsHosts(accepts: Policy, s: SessionState, form: Form)
    requires HostsSpaceFree(s)
    ensures HostsSpaceFree(Submitted(accepts, s, form).0)
  {
    FormKindsHold(form);
    AllAppliedKeepsHosts(accepts, s, SubmissionOf(form));
  }

  lemma FieldsKeepHosts(accepts: Policy, s: SessionState, f: Submission)
    requires HostsSpaceFree(s) && FormKinds(f)
    ensures HostsSpaceFree(Fields(accepts, s, f).0)
  {}

  lemma AllAppliedKeepsHosts(accepts: Policy, s: SessionState, f: Submission)
    requires HostsSpaceFree(s) && FormKinds(f)
    ensures HostsSpaceFree(AllApplied(accepts, s, f).0)
  {
    FieldsKeepHosts(accepts, s, f);
    var t := Fields(accepts, s, f).0;
    ChannelsOnly(accepts, t, f.channels, |f.channels|);
    var u := AppliedWhileOk(accepts, t, f.channels, |f.channels|).0;
    assert SaveApplied(accepts, u).0.draft == u.draft;
  }

  /** Over any history, neither the draft nor the store holds a host with white
      space, unless it was there at first. */
  lemma {:induction false} HostsStaySpaceFree(accepts: Policy, s: SessionState, events: seq<Event>)
    requires HostsSpaceFree(s)
    ensures HostsSpaceFree(After(accepts, s, events))
    decreases |events|
  {
    if events != [] {
      var n := |events| - 1;
      var t := After(accepts, s, events[..n]);
      HostsStaySpaceFree(accepts, s, events[..n]);
      match events[n] {
        case Line(text) =>
          ParsedHostIsSpaceFree(text);
          CommandKeepsHosts(accepts, t, Parse(text));
        case FormSent(form) => SubmissionKeepsHosts(accepts, t, form);
        case Restart =>
      }
    }
  }

  /** So the round trip needs no condition on the host: from every valid draft that
      a node can reach, submitting the current values is an identity and stores it. */
  lemma ReachedDraftsRoundTrip(accepts: Policy, s: SessionState, events: seq<Event>)
    requires HostsSpaceFree(s)
    requires var t := After(accepts, s, events);
             t.draft.Valid() && |t.draft.channels| <= INT_MAX && accepts(|t.handed|)
    ensures var t := After(accepts, s, events);
            Submitted(accepts, t, FormOf(t.draft))
            == (SessionState(t.draft, true, t.draft, t.handed + [t.draft]), Rebooting)
  {
    HostsStaySpaceFree(accepts, s, events);
    RoundTrip(accepts, After(accepts, s, events));
  }
}
