/**
  Capability negotiation: the client's offer, the server's proposal and the client's check of it, as text that is
  rendered at one end and parsed at the other. Also the choice of a block size.
*/
module Negotiation {
  import opened Basics
  import opened Text
  import opened Transfer
  import opened TransferCredit

  const VERSION := "PCUTP/2"
  const LARGEST_VALUE := 1048576
  const KNOWN := {"FLOW", "MAXBLK", "WINDOW", "RXBUF", "LZ4", "IDENTITY"}

  type Capabilities = map<string, nat>

  /** `flow` and what comes with it, as one end sees them when the greeting is over. */
  datatype Session = Session(block: nat, window: nat, flow: bool, lz4: bool, identity: bool)

  datatype ClientConfig = ClientConfig(maxBlock: nat, window: nat, rxBuf: nat, compression: bool)
  {
    /** What the client's constructor accepts. */
    predicate Valid() {
      1 <= maxBlock <= MAX_BLOCK_SIZE && 1 <= window <= MAX_WINDOW && rxBuf >= maxBlock + FRAME_OVERHEAD
    }
  }

  datatype ServerConfig = ServerConfig(blockLimit: nat, window: nat, compression: bool, baud: nat)
  {
    predicate Valid() {
      1 <= blockLimit <= MAX_BLOCK_SIZE && 1 <= window <= MAX_WINDOW
    }
  }

  // ---- options --------------------------------------------------------------------

  /** Where `ch` first appears, or the length. */
  function Find(s: string, ch: char): (n: nat)
    ensures n <= |s| && ch !in s[..n] && (n < |s| ==> s[n] == ch)
  {
    if s == [] || s[0] == ch then 0 else 1 + Find(s[1..], ch)
  }

  /** One token: passed over, taken in, or refused. */
  function AddOption(values: Capabilities, token: string): Option<Capabilities> {
    var i := Find(token, '=');
    var key := token[..i];
    if key !in KNOWN then Some(values)
    else if i == |token| || !IsDecimal(token[i + 1..]) || key in values then None
    else if 1 <= Number(token[i + 1..]) <= LARGEST_VALUE then Some(values[key := Number(token[i + 1..])])
    else None
  }

  function OptionsFrom(values: Capabilities, tokens: seq<string>): Option<Capabilities>
    decreases |tokens|
  {
    if tokens == [] then Some(values)
    else
      match AddOption(values, tokens[0])
      case None => None
      case Some(more) => OptionsFrom(more, tokens[1..])
  }

  /** `options` of src/pcutp/flow.py. */
  method ParseOptions(tokens: seq<string>) returns (values: Option<Capabilities>)
    ensures values == OptionsFrom(map[], tokens)
    ensures values.Some? ==> forall k :: k in values.value ==> k in KNOWN && 1 <= values.value[k] <= LARGEST_VALUE
  {
    var found: Capabilities := map[];
    var i := 0;
    assert tokens[0..] == tokens;
    while i < |tokens|
      invariant 0 <= i <= |tokens|
      invariant OptionsFrom(found, tokens[i..]) == OptionsFrom(map[], tokens)
      invariant forall k :: k in found ==> k in KNOWN && 1 <= found[k] <= LARGEST_VALUE
    {
      var token := tokens[i];
      assert tokens[i..][0] == token && tokens[i..][1..] == tokens[i + 1..];
      var equals := Find(token, '=');
      var key := token[..equals];
      i := i + 1;
      if key !in KNOWN {
        continue;
      }
      if equals == |token| || !IsDecimal(token[equals + 1..]) || key in found {
        return None;
      }
      var number := Number(token[equals + 1..]);
      if !(1 <= number <= LARGEST_VALUE) {
        return None;
      }
      found := found[key := number];
    }
    return Some(found);
  }

  function Setting(key: string, n: nat): string {
    key + "=" + Decimal(n)
  }

  lemma {:induction false} FindInSetting(key: string, rest: string)
    requires '=' !in key
    ensures Find(key + "=" + rest, '=') == |key|
  {
    if key == [] {
    } else {
      FindInSetting(key[1..], rest);
      assert (key + "=" + rest)[1..] == key[1..] + "=" + rest;
    }
  }

  /** A setting reads back as it was written, if its key is known, new and in range; an unknown one is passed over;
      and nothing else is accepted. */
  lemma SettingReadsBack(values: Capabilities, key: string, n: nat)
    requires '=' !in key
    ensures AddOption(values, Setting(key, n)) ==
            if key !in KNOWN then Some(values)
            else if key !in values && 1 <= n <= LARGEST_VALUE then Some(values[key := n])
            else None
  {
    FindInSetting(key, Decimal(n));
    DecimalReadsBack(n);
    var token := Setting(key, n);
    assert token[..|key|] == key && token[|key| + 1..] == Decimal(n);
  }

  lemma {:induction false} NoSpaceInDecimal(n: nat)
    ensures IsWord(Decimal(n))
  {
    DecimalReadsBack(n);
  }

  lemma SettingIsWord(key: string, n: nat)
    requires IsWord(key)
    ensures IsWord(Setting(key, n))
  {
    NoSpaceInDecimal(n);
  }

  function Get(values: Capabilities, key: string, default: nat): nat {
    if key in values then values[key] else default
  }

  // ---- the server's side --------------------------------------------------------------

  /** What the server makes of a client's capabilities; nothing if its buffer cannot hold one frame. */
  function Propose(s: ServerConfig, caps: Capabilities): Option<Session> {
    var block := Min(s.blockLimit, Get(caps, "MAXBLK", s.blockLimit));
    var identity := Get(caps, "IDENTITY", 0) == 1;
    if Get(caps, "FLOW", 0) != 1 then Some(Session(block, 1, false, false, identity))
    else
      var capacity := Get(caps, "RXBUF", 0) / (block + FRAME_OVERHEAD);
      if capacity < 1 then None
      else
        Some(Session(block, Min(Min(s.window, Get(caps, "WINDOW", 1)), capacity), true,
                     s.compression && Get(caps, "LZ4", 0) == 1, identity))
  }

  function Answer(s: ServerConfig, line: string): Option<Session> {
    var parts := Words(line);
    if |parts| < 2 || parts[0] !in {"HELLO", "HELLO?"} || parts[1] != VERSION then None
    else
      match OptionsFrom(map[], parts[2..])
      case None => None
      case Some(caps) => Propose(s, caps)
  }

  function ProposalTail(s: ServerConfig, e: Session): seq<string> {
    [Setting("BAUD", s.baud), Setting("MAXBLK", e.block)]
    + (if e.flow then [Setting("FLOW", 1), Setting("WINDOW", e.window)] + (if e.lz4 then [Setting("LZ4", 1)] else [])
       else [])
    + (if e.identity then [Setting("IDENTITY", 1)] else [])
  }

  /** The proposal in answer to HELLO, and the form it has when HELLO? or a repeated HELLO asked for it. */
  function ProposalLine(s: ServerConfig, e: Session, repeated: bool): string {
    Joined((if repeated then ["OHRU", VERSION] else ["HELLO", VERSION, "HRU?"]) + ProposalTail(s, e))
  }

  // ---- the client's side ----------------------------------------------------------------

  function OfferTail(c: ClientConfig): seq<string> {
    [Setting("FLOW", 1), Setting("MAXBLK", c.maxBlock), Setting("WINDOW", c.window), Setting("RXBUF", c.rxBuf)]
    + (if c.compression then [Setting("LZ4", 1)] else []) + [Setting("IDENTITY", 1)]
  }

  function OfferLine(c: ClientConfig, again: bool): string {
    Joined([if again then "HELLO?" else "HELLO", VERSION] + OfferTail(c))
  }

  /** What the client reads from a proposal's settings, unless they exceed what it offered. */
  function Accept(c: ClientConfig, caps: Capabilities): Option<Session> {
    var block := Get(caps, "MAXBLK", MAX_BLOCK_SIZE);
    var flow := Get(caps, "FLOW", 0) == 1;
    var lz4 := flow && Get(caps, "LZ4", 0) == 1;
    var window := if flow then Get(caps, "WINDOW", 1) else 1;
    if lz4 && !c.compression then None
    else if block > c.maxBlock || window > c.window || window * (block + FRAME_OVERHEAD) > c.rxBuf then None
    else Some(Session(block, window, flow, lz4, Get(caps, "IDENTITY", 0) == 1))
  }

  function Check(c: ClientConfig, line: string): Option<Session> {
    var parts := Words(line);
    var normal := parts[..Min(3, |parts|)] == ["HELLO", VERSION, "HRU?"];
    if !normal && parts[..Min(2, |parts|)] != ["OHRU", VERSION] then None
    else
      match OptionsFrom(map[], parts[if normal then 3 else 2..])
      case None => None
      case Some(caps) => Accept(c, caps)
  }

  // ---- reading what was written -------------------------------------------------------------

  /** A setting at the head of the tokens. */
  lemma HeadSetting(values: Capabilities, key: string, n: nat, rest: seq<string>)
    requires '=' !in key
    ensures OptionsFrom(values, [Setting(key, n)] + rest) ==
            if key !in KNOWN then OptionsFrom(values, rest)
            else if key !in values && 1 <= n <= LARGEST_VALUE then OptionsFrom(values[key := n], rest)
            else None
  {
    SettingReadsBack(values, key, n);
    hide AddOption, Setting;
    assert ([Setting(key, n)] + rest)[1..] == rest;
  }

  function OfferCapabilities(c: ClientConfig): Capabilities {
    var caps := map["FLOW" := 1, "MAXBLK" := c.maxBlock, "WINDOW" := c.window, "RXBUF" := c.rxBuf];
    (if c.compression then caps["LZ4" := 1] else caps)["IDENTITY" := 1]
  }

  /** The offer reads back, unless the receive buffer is larger than an option may say. */
  lemma OfferReadsBack(c: ClientConfig)
    requires c.Valid()
    ensures OptionsFrom(map[], OfferTail(c)) ==
            if c.rxBuf <= LARGEST_VALUE then Some(OfferCapabilities(c)) else None
  {
    hide OptionsFrom, Setting;
    var tail := if c.compression then [Setting("LZ4", 1)] else [];
    var t3 := tail + [Setting("IDENTITY", 1)];
    var t2 := [Setting("RXBUF", c.rxBuf)] + t3;
    var t1 := [Setting("WINDOW", c.window)] + t2;
    var t0 := [Setting("MAXBLK", c.maxBlock)] + t1;
    assert OfferTail(c) == [Setting("FLOW", 1)] + t0;
    var v := map["FLOW" := 1, "MAXBLK" := c.maxBlock, "WINDOW" := c.window];
    HeadSetting(map[], "FLOW", 1, t0);
    HeadSetting(map["FLOW" := 1], "MAXBLK", c.maxBlock, t1);
    HeadSetting(map["FLOW" := 1, "MAXBLK" := c.maxBlock], "WINDOW", c.window, t2);
    HeadSetting(v, "RXBUF", c.rxBuf, t3);
    EndReadsBack(v["RXBUF" := c.rxBuf], c.compression, true);
  }

  /** The last two settings of an offer or a proposal. */
  lemma EndReadsBack(values: Capabilities, lz4: bool, identity: bool)
    requires "LZ4" !in values && "IDENTITY" !in values
    ensures OptionsFrom(values, (if lz4 then [Setting("LZ4", 1)] else [])
                                + if identity then [Setting("IDENTITY", 1)] else []) ==
            Some(var v := if lz4 then values["LZ4" := 1] else values; if identity then v["IDENTITY" := 1] else v)
  {
    hide Setting;
    var v := if lz4 then values["LZ4" := 1] else values;
    var last := if identity then [Setting("IDENTITY", 1)] else [];
    if lz4 {
      HeadSetting(values, "LZ4", 1, last);
    } else {
      assert [] + last == last;
    }
    if identity {
      HeadSetting(v, "IDENTITY", 1, []);
      assert [Setting("IDENTITY", 1)] + [] == last;
    }
  }

  /** The proposal reads back as the session it proposes. */
  lemma ProposalReadsBack(s: ServerConfig, e: Session)
    requires 1 <= e.block <= LARGEST_VALUE && 1 <= e.window <= LARGEST_VALUE && (!e.flow ==> !e.lz4 && e.window == 1)
    ensures var caps := OptionsFrom(map[], ProposalTail(s, e));
            && caps.Some? && Get(caps.value, "MAXBLK", MAX_BLOCK_SIZE) == e.block
            && (Get(caps.value, "FLOW", 0) == 1 <==> e.flow) && (e.flow ==> Get(caps.value, "WINDOW", 1) == e.window)
            && (Get(caps.value, "LZ4", 0) == 1 <==> e.lz4) && (Get(caps.value, "IDENTITY", 0) == 1 <==> e.identity)
  {
    hide OptionsFrom, Setting;
    var last := if e.identity then [Setting("IDENTITY", 1)] else [];
    var end := (if e.lz4 then [Setting("LZ4", 1)] else []) + last;
    var t2 := if e.flow then [Setting("WINDOW", e.window)] + end else end;
    var t1 := if e.flow then [Setting("FLOW", 1)] + t2 else t2;
    var t0 := [Setting("MAXBLK", e.block)] + t1;
    assert ProposalTail(s, e) == [Setting("BAUD", s.baud)] + t0;
    HeadSetting(map[], "BAUD", s.baud, t0);
    HeadSetting(map[], "MAXBLK", e.block, t1);
    var v: Capabilities := map["MAXBLK" := e.block];
    if e.flow {
      HeadSetting(v, "FLOW", 1, t2);
      HeadSetting(v["FLOW" := 1], "WINDOW", e.window, end);
      EndReadsBack(v["FLOW" := 1]["WINDOW" := e.window], e.lz4, e.identity);
    } else {
      EndReadsBack(v, e.lz4, e.identity);
    }
  }

  lemma TailsAreWords(c: ClientConfig, s: ServerConfig, e: Session)
    ensures forall w :: w in OfferTail(c) ==> IsWord(w)
    ensures forall w :: w in ProposalTail(s, e) ==> IsWord(w)
  {
    hide Setting, Decimal;
    SettingIsWord("FLOW", 1);
    SettingIsWord("MAXBLK", c.maxBlock);
    SettingIsWord("WINDOW", c.window);
    SettingIsWord("RXBUF", c.rxBuf);
    SettingIsWord("LZ4", 1);
    SettingIsWord("IDENTITY", 1);
    SettingIsWord("BAUD", s.baud);
    SettingIsWord("MAXBLK", e.block);
    SettingIsWord("WINDOW", e.window);
  }

  lemma OfferWords(c: ClientConfig, again: bool)
    ensures Words(OfferLine(c, again)) == [if again then "HELLO?" else "HELLO", VERSION] + OfferTail(c)
  {
    TailsAreWords(c, ServerConfig(1, 1, false, 0), Session(1, 1, false, false, false));
    hide OfferTail, Joined, Words;
    WordsOfJoined([if again then "HELLO?" else "HELLO", VERSION] + OfferTail(c));
  }

  lemma ProposalWords(s: ServerConfig, e: Session, repeated: bool)
    ensures Words(ProposalLine(s, e, repeated)) ==
            (if repeated then ["OHRU", VERSION] else ["HELLO", VERSION, "HRU?"]) + ProposalTail(s, e)
  {
    TailsAreWords(ClientConfig(1, 1, 65, false), s, e);
    hide ProposalTail, Joined, Words;
    WordsOfJoined((if repeated then ["OHRU", VERSION] else ["HELLO", VERSION, "HRU?"]) + ProposalTail(s, e));
  }

  // ---- agreement ------------------------------------------------------------------------------

  /** What the two ends should agree on. */
  function Agreed(c: ClientConfig, s: ServerConfig): Session {
    var block := Min(s.blockLimit, c.maxBlock);
    Session(block, Min(Min(s.window, c.window), c.rxBuf / (block + FRAME_OVERHEAD)), true,
            c.compression && s.compression, true)
  }

  lemma AgreedFits(c: ClientConfig, s: ServerConfig)
    requires c.Valid() && s.Valid()
    ensures var e := Agreed(c, s);
            && 1 <= e.block <= c.maxBlock && 1 <= e.window <= c.window && e.window <= s.window
            && e.window * (e.block + FRAME_OVERHEAD) <= c.rxBuf
  {
    var slot := Agreed(c, s).block + FRAME_OVERHEAD;
    assert c.rxBuf / slot >= 1;
    ShareFits(c.rxBuf, slot, Agreed(c, s).window);
  }

  lemma ShareFits(total: nat, slot: nat, n: nat)
    requires slot >= 1 && n <= total / slot
    ensures n * slot <= total
  {
    assert total / slot * slot <= total;
    assert n * slot <= total / slot * slot;
  }

  /** The server answers an offer exactly when the receive buffer can be announced, and then with what both can do. */
  lemma OfferIsAnswered(c: ClientConfig, s: ServerConfig, again: bool)
    requires c.Valid() && s.Valid()
    ensures Answer(s, OfferLine(c, again)) == if c.rxBuf <= LARGEST_VALUE then Some(Agreed(c, s)) else None
  {
    OfferWords(c, again);
    OfferReadsBack(c);
    AgreedFits(c, s);
    hide Words, OfferLine, OptionsFrom, OfferTail;
    var parts := Words(OfferLine(c, again));
    assert parts[2..] == OfferTail(c);
    assert parts[0] == if again then "HELLO?" else "HELLO";
    assert parts[1] == VERSION;
  }

  lemma ProposalIsAccepted(c: ClientConfig, s: ServerConfig, repeated: bool)
    requires c.Valid() && s.Valid()
    ensures Check(c, ProposalLine(s, Agreed(c, s), repeated)) == Some(Agreed(c, s))
  {
    var e := Agreed(c, s);
    AgreedFits(c, s);
    ProposalWords(s, e, repeated);
    ProposalReadsBack(s, e);
    hide Words, ProposalLine, OptionsFrom, ProposalTail, Get;
    var parts := Words(ProposalLine(s, e, repeated));
    if repeated {
      assert parts[..2] == ["OHRU", VERSION];
      assert parts[0] == "OHRU";
      assert parts[..Min(3, |parts|)][0] != "HELLO";
      assert parts[2..] == ProposalTail(s, e);
    } else {
      assert parts[..3] == ["HELLO", VERSION, "HRU?"];
      assert parts[3..] == ProposalTail(s, e);
    }
  }

  /** Negotiation agrees: for any two configurations, in both forms of the offer and of the proposal, both ends leave
      the greeting with the same values. It fails only if the receive buffer is beyond what an option can say, and the
      client's check for exceeded capabilities never fires. */
  lemma EndsAgree(c: ClientConfig, s: ServerConfig, again: bool, repeated: bool)
    requires c.Valid() && s.Valid()
    ensures Answer(s, OfferLine(c, again)).Some? <==> c.rxBuf <= 1048576
    ensures var e := Answer(s, OfferLine(c, again));
            e.Some? ==> Check(c, ProposalLine(s, e.value, repeated)) == e && e.value == Agreed(c, s)
  {
    OfferIsAnswered(c, s, again);
    ProposalIsAccepted(c, s, repeated);
    hide *;
  }

  /** Whatever proposal arrives, a client that goes on has room for a full window of it. */
  lemma AcceptedSessionFits(c: ClientConfig, line: string)
    requires Check(c, line).Some?
    ensures var e := Check(c, line).value;
            && e.block <= c.maxBlock && e.window <= c.window && e.window * (e.block + FRAME_OVERHEAD) <= c.rxBuf
            && (e.lz4 ==> e.flow && c.compression) && (!e.flow ==> e.window == 1)
  {
    hide Words, OptionsFrom;
  }

  /** Whatever offer arrives, the proposal exceeds no limit of either end; without flow control it has none of what
      comes with it, and with flow control it stays within the buffer that was announced. */
  lemma ProposedSessionFits(s: ServerConfig, caps: Capabilities)
    requires s.Valid() && Propose(s, caps).Some?
    ensures var e := Propose(s, caps).value;
            && e.block <= s.blockLimit && ("MAXBLK" in caps ==> e.block <= caps["MAXBLK"])
            && (e.block == s.blockLimit || ("MAXBLK" in caps && e.block == caps["MAXBLK"]))
            && e.window <= s.window && ("WINDOW" in caps ==> e.window <= Max(1, caps["WINDOW"]))
            && (e.flow <==> "FLOW" in caps && caps["FLOW"] == 1)
            && (e.identity <==> "IDENTITY" in caps && caps["IDENTITY"] == 1)
            && (e.lz4 <==> e.flow && s.compression && "LZ4" in caps && caps["LZ4"] == 1)
            && (!e.flow ==> e.window == 1)
            && (e.flow ==> e.window * (e.block + 64) <= Get(caps, "RXBUF", 0))
            && (e.flow && e.window < s.window && e.window < Get(caps, "WINDOW", 1) ==>
                  (e.window + 1) * (e.block + 64) > Get(caps, "RXBUF", 0))
  {
    var e := Propose(s, caps).value;
    if e.flow {
      ShareFits(Get(caps, "RXBUF", 0), e.block + FRAME_OVERHEAD, e.window);
    }
  }

  /** From the greeting to the line: over a line that does not repeat blocks, the blocks in flight never exceed the
      receive buffer the client announced. */
  lemma ReceiveBufferSuffices(client: ClientConfig, s: ServerConfig, c: Config, steps: seq<Step>)
    requires client.Valid() && s.Valid() && c.Valid() && Exec(c, steps).Some? && BlocksOnce(c, steps)
    requires c.blockSize <= Agreed(client, s).block && c.window == Agreed(client, s).window
    ensures InFlight(Exec(c, steps).value.toR) <= client.rxBuf
  {
    hide *;
    FlightFitsWindow(c, steps);
    AgreedFits(client, s);
    var e := Agreed(client, s);
    SmallerFits(e.window, c.blockSize + FRAME_OVERHEAD, e.block + FRAME_OVERHEAD);
  }

  lemma SmallerFits(n: nat, slot: nat, larger: nat)
    requires slot <= larger
    ensures n * slot <= n * larger
  {
  }

  // ---- the two ends as they run ---------------------------------------------------------------

  class ServerEnd {
    const config: ServerConfig
    var blockSize: nat
    var negotiatedBlockLimit: nat
    var flow: bool
    var compression: bool
    var identity: bool
    var windowSize: nat

    constructor (config: ServerConfig)
      ensures this.config == config
    {
      this.config := config;
    }

    ghost function View(): Session
      reads this
    {
      Session(blockSize, windowSize, flow, compression, identity)
    }

    /** The first half of `_handle_hello`: read the offer, settle on a session, and word the proposal. */
    method HandleHello(line: string) returns (proposal: Option<string>)
      modifies this
      ensures proposal.Some? <==> Answer(config, line).Some?
      ensures proposal.Some? ==>
                && View() == Answer(config, line).value && negotiatedBlockLimit == blockSize
                && proposal.value == ProposalLine(config, View(), Words(line)[0] == "HELLO?")
    {
      hide OptionsFrom, Words, Joined, Setting;
      var parts := Words(line);
      if |parts| < 2 || parts[0] !in {"HELLO", "HELLO?"} || parts[1] != VERSION {
        return None;
      }
      var read := ParseOptions(parts[2..]);
      if read.None? {
        return None;
      }
      var capabilities := read.value;
      blockSize := Min(config.blockLimit, Get(capabilities, "MAXBLK", config.blockLimit));
      negotiatedBlockLimit := blockSize;
      flow := Get(capabilities, "FLOW", 0) == 1;
      compression := flow && config.compression && Get(capabilities, "LZ4", 0) == 1;
      identity := Get(capabilities, "IDENTITY", 0) == 1;
      windowSize := 1;
      var extra := [];
      if flow {
        var capacity := Get(capabilities, "RXBUF", 0) / (blockSize + FRAME_OVERHEAD);
        if capacity < 1 {
          return None;
        }
        windowSize := Min(Min(config.window, Get(capabilities, "WINDOW", 1)), capacity);
        extra := [Setting("FLOW", 1), Setting("WINDOW", windowSize)];
        if compression {
          extra := extra + [Setting("LZ4", 1)];
        }
      }
      if identity {
        extra := extra + [Setting("IDENTITY", 1)];
      }
      var tail := [Setting("BAUD", config.baud), Setting("MAXBLK", blockSize)] + extra;
      assert tail == ProposalTail(config, View());
      hide ProposalTail;
      return Some(Joined((if parts[0] == "HELLO" then ["HELLO", VERSION, "HRU?"] else ["OHRU", VERSION]) + tail));
    }
  }

  class ClientEnd {
    const config: ClientConfig
    var flow: bool
    var compression: bool
    var identity: bool
    var windowSize: nat

    constructor (config: ClientConfig)
      ensures this.config == config
    {
      this.config := config;
    }

    /** The middle of `hello`: read the proposal, take over its values, refuse one that exceeds the offer. */
    method CheckProposal(line: string) returns (maxBlock: Option<nat>)
      modifies this
      ensures maxBlock.Some? <==> Check(config, line).Some?
      ensures maxBlock.Some? ==>
                Session(maxBlock.value, windowSize, flow, compression, identity) == Check(config, line).value
    {
      hide OptionsFrom, Words;
      var parts := Words(line);
      var normal := parts[..Min(3, |parts|)] == ["HELLO", VERSION, "HRU?"];
      if !normal && parts[..Min(2, |parts|)] != ["OHRU", VERSION] {
        return None;
      }
      var read := ParseOptions(parts[if normal then 3 else 2..]);
      if read.None? {
        return None;
      }
      var capabilities := read.value;
      var block := Get(capabilities, "MAXBLK", MAX_BLOCK_SIZE);
      flow := Get(capabilities, "FLOW", 0) == 1;
      compression := flow && Get(capabilities, "LZ4", 0) == 1;
      identity := Get(capabilities, "IDENTITY", 0) == 1;
      if compression && !config.compression {
        return None;
      }
      windowSize := if flow then Get(capabilities, "WINDOW", 1) else 1;
      if block > config.maxBlock || windowSize > config.window
         || windowSize * (block + FRAME_OVERHEAD) > config.rxBuf {
        return None;
      }
      return Some(block);
    }
  }

  // ---- choosing a block size ------------------------------------------------------------------

  /** `max(1, ceil(size / n))` frames at 180 / baud seconds each, and 40 microseconds for every byte of the last one. */
  function Cost(size: nat, baud: nat, n: nat): real
    requires n >= 1 && baud >= 1
  {
    Max(1, (size + n - 1) / n) as real * 180.0 / baud as real + Min(size, n) as real * 0.00004
  }

  const STANDARD_BLOCKS := [256, 512, 1024, 2048, 4096]

  predicate IsCandidate(limit: nat, n: nat) {
    n <= limit && (n in STANDARD_BLOCKS || n == limit)
  }

  lemma CandidatesAre(limit: nat, n: nat)
    ensures IsCandidate(limit, n) <==> n <= limit && n in {256, 512, 1024, 2048, 4096, limit}
  {
  }

  /** The same times `25000 * baud`: the order of costs in whole numbers. */
  function Weight(size: nat, baud: nat, n: nat): nat
    requires n >= 1
  {
    4500000 * Max(1, (size + n - 1) / n) + Min(size, n) * baud
  }

  lemma CostIsWeight(size: nat, baud: nat, n: nat)
    requires n >= 1 && baud >= 1
    ensures Cost(size, baud, n) * (25000.0 * baud as real) == Weight(size, baud, n) as real
  {
    var frames, last, b := Max(1, (size + n - 1) / n), Min(size, n), baud as real;
    assert frames as real * 180.0 / b * b == frames as real * 180.0;
  }

  /** A dearer block has the greater weight. */
  lemma CostsCompare(size: nat, baud: nat, m: nat, n: nat)
    requires m >= 1 && n >= 1 && baud >= 1
    ensures Cost(size, baud, m) <= Cost(size, baud, n) <==> Weight(size, baud, m) <= Weight(size, baud, n)
  {
    hide *;
    CostIsWeight(size, baud, m);
    CostIsWeight(size, baud, n);
    ScaleIsPositive(baud);
    WeightsCompare(Cost(size, baud, m), Cost(size, baud, n), 25000.0 * baud as real,
                   Weight(size, baud, m), Weight(size, baud, n));
  }

  lemma ScaleIsPositive(baud: nat)
    requires baud >= 1
    ensures 25000.0 * baud as real > 0.0
  {
  }

  lemma WeightsCompare(a: real, b: real, k: real, x: nat, y: nat)
    requires k > 0.0 && a * k == x as real && b * k == y as real
    ensures a <= b <==> x <= y
  {
    ScaledCompare(a, b, k);
  }

  lemma ScaledCompare(a: real, b: real, k: real)
    requires k > 0.0
    ensures a <= b <==> a * k <= b * k
  {
    if a <= b {
      assert (b - a) * k >= 0.0;
    } else {
      assert (a - b) * k > 0.0;
    }
  }

  /** `choose_block`: the limit when there is no window, else the cheapest candidate, and of equally cheap ones the
      smallest. */
  method ChooseBlock(size: nat, limit: nat, window: nat, baud: nat) returns (best: nat)
    requires limit >= 1 && baud >= 1
    ensures 1 <= best <= limit
    ensures window == 1 ==> best == limit
    ensures best in {256, 512, 1024, 2048, 4096, limit}
    ensures window != 1 ==>
              && IsCandidate(limit, best)
              && forall n :: IsCandidate(limit, n) ==>
                   n >= 1 && (Cost(size, baud, best) < Cost(size, baud, n)
                              || (Cost(size, baud, best) == Cost(size, baud, n) && best <= n))
    ensures window != 1 ==>
              forall n: nat :: IsCandidate(limit, n) ==>
                n >= 1
                && 4500000 * Max(1, (size + best - 1) / best) + Min(size, best) * baud
                   <= 4500000 * Max(1, (size + n - 1) / n) + Min(size, n) * baud
  {
    hide Cost;
    if window == 1 {
      return limit;
    }
    best := 0;
    var i := 0;
    while i < |STANDARD_BLOCKS|
      invariant 0 <= i <= |STANDARD_BLOCKS|
      invariant best != 0 ==> best <= limit && best in STANDARD_BLOCKS[..i]
      invariant forall n :: n <= limit && n in STANDARD_BLOCKS[..i] ==>
                  && best != 0 && n >= 1
                  && (Cost(size, baud, best) < Cost(size, baud, n)
                      || (Cost(size, baud, best) == Cost(size, baud, n) && best <= n))
    {
      var n := STANDARD_BLOCKS[i];
      if n <= limit && (best == 0 || Cost(size, baud, n) < Cost(size, baud, best)) {
        best := n;
      }
      i := i + 1;
    }
    if limit !in STANDARD_BLOCKS && (best == 0 || Cost(size, baud, limit) < Cost(size, baud, best)) {
      best := limit;
    }
    CandidatesAre(limit, best);
    forall n | IsCandidate(limit, n)
      ensures n >= 1 && Weight(size, baud, best) <= Weight(size, baud, n)
    {
      CostsCompare(size, baud, best, n);
    }
  }
}
