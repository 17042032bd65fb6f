/** Identifier canonicalisation and event-log decoding for ledger receipts
    (src/lib/tronEvents.js). The layout decoded is the one of the "Events"
    section of the Solidity Contract ABI Specification: topic 0 is the hash of
    `Name(type1,...,typeN)`, indexed parameters follow in the later topics and
    the other parameters are ABI-encoded in the data payload. The hash, hex,
    address and ABI-data conversions are supplied by the caller (`TronWeb`). */
module TronEvents {
  import opened Base
  import opened JsText
  import opened JsValues
  import opened Search

  /** One `inputs` entry of an ABI event description. */
  datatype EventInput = EventInput(name: string, typ: string, indexed: bool)

  /** An ABI entry of type "event". */
  datatype EventAbi = EventAbi(name: string, inputs: seq<EventInput>)

  /** One receipt log: its topics in order (an absent topic list behaves as an
      empty one) and its data payload ("" when absent). */
  datatype Log = Log(topics: seq<string>, data: string)

  /** `{ eventName, args }`: an argument missing from `args` reads as undefined. */
  datatype DecodedEvent = DecodedEvent(eventName: string, args: map<string, JsValue>)

  /** The conversions of the ledger client library, left uninterpreted. */
  datatype TronWeb = TronWeb(
    sha3: string -> string,
    toHex: string -> string,
    addressFromHex: JsValue -> JsValue,
    decodeParams: (seq<string>, string) -> Completion<seq<JsValue>>)

  /** `decoded.args[name]` */
  function Arg(ev: DecodedEvent, name: string): JsValue {
    if name in ev.args then ev.args[name] else Undefined
  }

  // ---------------------------------------------------------------------------
  // normHex and toBytes32
  // ---------------------------------------------------------------------------

  /** `normHex(v)` for a string: "" stays "" (absent); anything else is
      lower-cased and carries exactly one leading `0x`. */
  function NormHex(v: string): (r: string)
    ensures r == "" <==> v == ""
    ensures r != "" ==> StartsWith(r, "0x") && NoUpper(r)
    ensures r == Lower(v) || r == "0x" + Lower(v)
  {
    LowerIsLower(v);
    if v == "" then ""
    else
      var s := Lower(v);
      if StartsWith(s, "0x") then s else "0x" + s
  }

  /** `normHex(v)` for an argument value: falsy values are absent. */
  function NormHexValue(v: JsValue): (r: string)
    ensures r == "" <==> !Truthy(v)
  {
    NormHex(StrOr(v, ""))
  }

  /** An input that already starts with `0x` or `0X` is only lower-cased:
      the prefix is never doubled. */
  lemma NormHexKeepsPrefix(v: string)
    requires |v| >= 2 && v[0] == '0' && (v[1] == 'x' || v[1] == 'X')
    ensures NormHex(v) == Lower(v)
  {
    assert Lower(v)[..2] == "0x";
  }

  /** An input without such a prefix gets `0x` in front of its lower-case form. */
  lemma NormHexAddsPrefix(v: string)
    requires v != "" && !(|v| >= 2 && v[0] == '0' && (v[1] == 'x' || v[1] == 'X'))
    ensures NormHex(v) == "0x" + Lower(v)
  {
  }

  lemma NormHexIdempotent(v: string)
    ensures NormHex(NormHex(v)) == NormHex(v)
  {
    var r := NormHex(v);
    if r != "" {
      LowerIsLower(r);
      assert Lower(r) == r;
    }
  }

  /** Inputs that differ only in letter case normalise alike. */
  lemma NormHexCaseInsensitive(a: string, b: string)
    requires Lower(a) == Lower(b)
    ensures NormHex(a) == NormHex(b)
  {
    assert |a| == |Lower(a)| == |Lower(b)| == |b|;
    if |a| >= 2 {
      assert Lower(a)[0] == Lower(b)[0] && Lower(a)[1] == Lower(b)[1];
    }
  }

  /** Writing the `0x` prefix or leaving it off makes no difference. */
  lemma NormHexPrefixOptional(v: string)
    requires v != "" && !StartsWith(Lower(v), "0x")
    ensures NormHex("0x" + v) == NormHex(v)
  {
    LowerAppend("0x", v);
    assert Lower("0x") == "0x";
    NormHexKeepsPrefix("0x" + v);
  }

  /** `.replace(/^0x/, "")`: removes one leading lower-case `0x`. */
  function StripHexPrefix(s: string): string {
    if StartsWith(s, "0x") then s[2..] else s
  }

  /** `"0".repeat(n)` */
  function Zeros(n: nat): (r: string)
    ensures |r| == n && forall i :: 0 <= i < n ==> r[i] == '0'
  {
    if n == 0 then "" else Zeros(n - 1) + "0"
  }

  /** `toBytes32(tronWeb, str)`: `0x` and exactly 64 characters, namely the
      hex form of `str` (without its `0x`) right-padded with '0' when it is
      shorter than 64 characters and cut to its first 64 otherwise. */
  function ToBytes32(tron: TronWeb, str: string): (r: string)
    ensures |r| == 66 && StartsWith(r, "0x")
    ensures var hex := StripHexPrefix(tron.toHex(str));
      if |hex| < 64 then r[2..] == hex + Zeros(64 - |hex|) else r[2..] == hex[..64]
  {
    var hex := StripHexPrefix(tron.toHex(str));
    var padded := hex + Zeros(64);
    assert |hex| < 64 ==> padded[..64] == hex + Zeros(64 - |hex|);
    "0x" + padded[..64]
  }

  /** The canonical form a stored identifier is compared in:
      `normHex(toBytes32(tronWeb, s))`, that is `toBytes32` lower-cased. */
  function StoredB32(tron: TronWeb, s: string): (r: string)
    ensures |r| == 66 && StartsWith(r, "0x") && NoUpper(r)
    ensures r == Lower(ToBytes32(tron, s))
  {
    var b := ToBytes32(tron, s);
    assert Lower(b)[..2] == "0x";
    NormHex(b)
  }

  // ---------------------------------------------------------------------------
  // Event signature and input selection
  // ---------------------------------------------------------------------------

  function Types(inputs: seq<EventInput>): (r: seq<string>)
    ensures |r| == |inputs| && forall i :: 0 <= i < |inputs| ==> r[i] == inputs[i].typ
  {
    seq(|inputs|, i requires 0 <= i < |inputs| => inputs[i].typ)
  }

  /** `Name(type1,type2,...)` over all inputs in declaration order. */
  function SignatureText(abi: EventAbi): string {
    abi.name + "(" + Join(Types(abi.inputs), ',') + ")"
  }

  /** `eventSignature(tronWeb, eventAbi)` */
  function EventSignature(tron: TronWeb, abi: EventAbi): string {
    tron.sha3(SignatureText(abi))
  }

  /** `inputs.filter((i) => i.indexed)` (or its negation), in declaration order. */
  function Select(inputs: seq<EventInput>, indexed: bool): (r: seq<EventInput>)
    ensures |r| <= |inputs|
    ensures forall x :: x in r <==> x in inputs && x.indexed == indexed
  {
    if inputs == [] then []
    else (if inputs[0].indexed == indexed then [inputs[0]] else []) + Select(inputs[1..], indexed)
  }

  /** `f` lists, in increasing order, exactly the positions of `inputs` whose
      `indexed` flag is `indexed`, and `r` holds the inputs at those positions. */
  predicate OrderedFilter(inputs: seq<EventInput>, indexed: bool, r: seq<EventInput>, f: seq<nat>) {
    PicksFlagged(inputs, indexed, r, f) && Increasing(f) && CoversFlagged(inputs, indexed, f)
  }

  /** `r[j]` is the input at position `f[j]`, and that input carries the flag. */
  predicate PicksFlagged(inputs: seq<EventInput>, indexed: bool, r: seq<EventInput>, f: seq<nat>) {
    && |f| == |r|
    && (forall j :: 0 <= j < |f| ==> f[j] < |inputs| && r[j] == inputs[f[j]] && inputs[f[j]].indexed == indexed)
  }

  predicate Increasing(f: seq<nat>) {
    forall j, j' :: 0 <= j < j' < |f| ==> f[j] < f[j']
  }

  /** Every position whose input carries the flag occurs in `f`. */
  predicate CoversFlagged(inputs: seq<EventInput>, indexed: bool, f: seq<nat>) {
    forall i :: 0 <= i < |inputs| && inputs[i].indexed == indexed ==> i in f
  }

  /** Every position of `g` moved one place to the right. */
  function Shift(g: seq<nat>): (f: seq<nat>)
    ensures |f| == |g| && forall j :: 0 <= j < |g| ==> f[j] == g[j] + 1
  {
    seq(|g|, j requires 0 <= j < |g| => g[j] + 1)
  }

  /** The filter keeps declaration order and multiplicity: the k-th selected
      input is the k-th input, counting from the start, that carries the flag. */
  lemma {:induction false} SelectIsOrderedFilter(inputs: seq<EventInput>, indexed: bool)
    ensures OrderedFilter(inputs, indexed, Select(inputs, indexed), FlaggedPositions(inputs, indexed))
  {
    if inputs != [] {
      var tail := inputs[1..];
      SelectIsOrderedFilter(tail, indexed);
      if inputs[0].indexed == indexed {
        OrderedFilterKeep(inputs, indexed, Select(tail, indexed), FlaggedPositions(tail, indexed));
        assert Select(inputs, indexed) == [inputs[0]] + Select(tail, indexed);
      } else {
        OrderedFilterSkip(inputs, indexed, Select(tail, indexed), FlaggedPositions(tail, indexed));
        assert Select(inputs, indexed) == Select(tail, indexed);
      }
    }
  }

  /** The positions of `inputs` whose `indexed` flag is `indexed`, in order. */
  function FlaggedPositions(inputs: seq<EventInput>, indexed: bool): seq<nat>
  {
    if inputs == [] then []
    else if inputs[0].indexed == indexed then [0] + Shift(FlaggedPositions(inputs[1..], indexed))
    else Shift(FlaggedPositions(inputs[1..], indexed))
  }

  /** The filter of `inputs` from the filter of its tail when the head is
      skipped: every position shifts by one. */
  lemma OrderedFilterSkip(inputs: seq<EventInput>, indexed: bool, rt: seq<EventInput>, g: seq<nat>)
    requires inputs != [] && inputs[0].indexed != indexed
    requires OrderedFilter(inputs[1..], indexed, rt, g)
    ensures OrderedFilter(inputs, indexed, rt, Shift(g))
  {
    ShiftPicks(inputs, indexed, rt, g);
    ShiftCovers(inputs, indexed, g, []);
  }

  /** The filter of `inputs` from the filter of its tail when the head is
      kept: position 0 comes first, then the tail's positions shifted by one. */
  lemma OrderedFilterKeep(inputs: seq<EventInput>, indexed: bool, rt: seq<EventInput>, g: seq<nat>)
    requires inputs != [] && inputs[0].indexed == indexed
    requires OrderedFilter(inputs[1..], indexed, rt, g)
    ensures OrderedFilter(inputs, indexed, [inputs[0]] + rt, [0] + Shift(g))
  {
    ShiftPicks(inputs, indexed, rt, g);
    ShiftCovers(inputs, indexed, g, [0]);
    ConsPicks(inputs, indexed, rt, Shift(g));
    ConsIncreasing(Shift(g));
  }

  lemma ConsPicks(inputs: seq<EventInput>, indexed: bool, r: seq<EventInput>, f: seq<nat>)
    requires inputs != [] && inputs[0].indexed == indexed && PicksFlagged(inputs, indexed, r, f)
    ensures PicksFlagged(inputs, indexed, [inputs[0]] + r, [0] + f)
  {
    forall j | 1 <= j <= |f| ensures ([0] + f)[j] == f[j - 1] && ([inputs[0]] + r)[j] == r[j - 1] {
    }
  }

  lemma ConsIncreasing(f: seq<nat>)
    requires Increasing(f) && forall j :: 0 <= j < |f| ==> f[j] > 0
    ensures Increasing([0] + f)
  {
    forall j, j' | 0 <= j < j' <= |f| ensures ([0] + f)[j] < ([0] + f)[j'] {
      assert ([0] + f)[j'] == f[j' - 1];
      if j >= 1 {
        assert ([0] + f)[j] == f[j - 1];
      }
    }
  }

  lemma ShiftPicks(inputs: seq<EventInput>, indexed: bool, rt: seq<EventInput>, g: seq<nat>)
    requires inputs != [] && PicksFlagged(inputs[1..], indexed, rt, g) && Increasing(g)
    ensures PicksFlagged(inputs, indexed, rt, Shift(g)) && Increasing(Shift(g))
  {
    forall j | 0 <= j < |g| ensures inputs[1..][g[j]] == inputs[g[j] + 1] {
    }
  }

  /** With `p` in front of the shifted positions, every flagged position
      after the head is still covered, and the head is covered when `p` is [0]. */
  lemma ShiftCovers(inputs: seq<EventInput>, indexed: bool, g: seq<nat>, p: seq<nat>)
    requires inputs != [] && CoversFlagged(inputs[1..], indexed, g)
    requires p == [] || p == [0]
    requires inputs[0].indexed == indexed ==> p == [0]
    ensures CoversFlagged(inputs, indexed, p + Shift(g))
  {
    var f := p + Shift(g);
    forall i | 0 <= i < |inputs| && inputs[i].indexed == indexed ensures i in f {
      if i == 0 {
        assert f[0] == 0;
      } else {
        assert inputs[1..][i - 1] == inputs[i];
        assert i - 1 in g;
        var j :| 0 <= j < |g| && g[j] == i - 1;
        assert f[j + |p|] == i;
      }
    }
  }

  lemma {:induction false} SelectSplitsInputs(inputs: seq<EventInput>)
    ensures |Select(inputs, true)| + |Select(inputs, false)| == |inputs|
  {
    if inputs != [] {
      SelectSplitsInputs(inputs[1..]);
    }
  }

  predicate DistinctNames(inputs: seq<EventInput>) {
    forall i, j :: 0 <= i < j < |inputs| ==> inputs[i].name != inputs[j].name
  }

  /** No two inputs of the event, indexed or not, share a name. */
  predicate WellFormedAbi(abi: EventAbi) {
    DistinctNames(Select(abi.inputs, true) + Select(abi.inputs, false))
  }

  // ---------------------------------------------------------------------------
  // tryDecodeLog
  // ---------------------------------------------------------------------------

  /** `topics[k]`, with a missing topic read as "" (falsy). */
  function TopicAt(topics: seq<string>, k: nat): string {
    if k < |topics| then topics[k] else ""
  }

  /** `s.slice(-n)` */
  function LastChars(s: string, n: nat): (r: string)
    ensures |r| == if |s| < n then |s| else n
    ensures r == s[|s| - |r|..]
  {
    if |s| <= n then s else s[|s| - n..]
  }

  /** The value an indexed input takes from its (non-empty) topic: an address
      from the topic's last 40 hex characters, anything else normalised. */
  function IndexedValue(tron: TronWeb, input: EventInput, topic: string): JsValue {
    if input.typ == "address" then tron.addressFromHex(Str("0x" + LastChars(topic, 40)))
    else Str(NormHex(topic))
  }

  /** The value of an indexed input read from its topic, as a function
      value, so that the loop below is stated independently of it. */
  function TopicDecoder(tron: TronWeb): (EventInput, string) -> JsValue {
    (input: EventInput, topic: string) => IndexedValue(tron, input, topic)
  }

  /** The arguments assigned by the first `n` iterations of the indexed loop:
      the k-th indexed input reads topic k+1 (through `value`) and is skipped
      when that topic is missing or empty. */
  function IndexedArgs(value: (EventInput, string) -> JsValue, indexed: seq<EventInput>, topics: seq<string>, n: nat): map<string, JsValue>
    requires n <= |indexed|
  {
    if n == 0 then map[]
    else
      var prev := IndexedArgs(value, indexed, topics, n - 1);
      var t := TopicAt(topics, n);
      if t == "" then prev else prev[indexed[n - 1].name := value(indexed[n - 1], t)]
  }

  /** `decoded[k]` with the address conversion of the data loop. */
  function DataValue(tron: TronWeb, input: EventInput, decoded: seq<JsValue>, k: nat): JsValue {
    var v := if k < |decoded| then decoded[k] else Undefined;
    if input.typ == "address" then tron.addressFromHex(v) else v
  }

  /** `base` extended by the first `n` iterations of the data loop. */
  function DataArgs(tron: TronWeb, base: map<string, JsValue>, nonIndexed: seq<EventInput>, decoded: seq<JsValue>, n: nat): map<string, JsValue>
    requires n <= |nonIndexed|
  {
    if n == 0 then base
    else DataArgs(tron, base, nonIndexed, decoded, n - 1)[nonIndexed[n - 1].name := DataValue(tron, nonIndexed[n - 1], decoded, n - 1)]
  }

  /** `log.data` with `0x` added when it is missing. */
  function DataHex(data: string): (r: string)
    ensures StartsWith(r, "0x")
    ensures r == data || r == "0x" + data
    ensures StartsWith(data, "0x") ==> r == data
  {
    if StartsWith(data, "0x") then data else "0x" + data
  }

  /** The log's normalised topic 0 is present and equals the normalised hash of
      the event's signature text. */
  predicate SignatureMatches(tron: TronWeb, log: Log, abi: EventAbi) {
    var topic0 := NormHex(TopicAt(log.topics, 0));
    topic0 != "" && topic0 == NormHex(EventSignature(tron, abi))
  }

  /** `tryDecodeLog(tronWeb, log, eventAbi)`: null (`Normal(None)`) exactly
      when topic 0 does not carry the event's signature; otherwise the decoded
      event named after the ABI entry, or the error the data decoder throws. */
  function TryDecodeLog(tron: TronWeb, log: Log, abi: EventAbi): (r: Completion<Option<DecodedEvent>>)
    ensures r == Normal(None) <==> !SignatureMatches(tron, log, abi)
    ensures r.Normal? && r.value.Some? ==> r.value.value.eventName == abi.name
    ensures r.Throw? ==> |Select(abi.inputs, false)| > 0
  {
    if !SignatureMatches(tron, log, abi) then Normal(None)
    else
      var indexed := Select(abi.inputs, true);
      var nonIndexed := Select(abi.inputs, false);
      var args := IndexedArgs(TopicDecoder(tron), indexed, log.topics, |indexed|);
      if |nonIndexed| == 0 then Normal(Some(DecodedEvent(abi.name, args)))
      else
        match tron.decodeParams(Types(nonIndexed), DataHex(log.data))
        case Throw(m) => Throw(m)
        case Normal(decoded) =>
          Normal(Some(DecodedEvent(abi.name, DataArgs(tron, args, nonIndexed, decoded, |nonIndexed|))))
  }

  /** With distinct names, after `n` iterations the k-th indexed input is
      present exactly when topic k+1 is non-empty, and then holds the value
      read from that topic. */
  lemma {:induction false} IndexedArgAt(value: (EventInput, string) -> JsValue, indexed: seq<EventInput>, topics: seq<string>, n: nat, k: nat)
    requires k < n <= |indexed| && DistinctNames(indexed)
    ensures var args := IndexedArgs(value, indexed, topics, n);
      && (indexed[k].name in args <==> TopicAt(topics, k + 1) != "")
      && (TopicAt(topics, k + 1) != "" ==> args[indexed[k].name] == value(indexed[k], TopicAt(topics, k + 1)))
  {
    var x := indexed[k].name;
    IndexedArgsStepDomain(value, indexed, topics, n, x);
    if x in IndexedArgs(value, indexed, topics, n) {
      IndexedArgsStepValue(value, indexed, topics, n, x);
    }
    if k < n - 1 {
      IndexedArgAt(value, indexed, topics, n - 1, k);
      assert x != indexed[n - 1].name;
    } else {
      IndexedArgsAbsent(value, indexed, topics, n - 1, x);
    }
  }

  /** One iteration of the indexed loop adds the input's name exactly when
      its topic is non-empty. */
  lemma IndexedArgsStepDomain(value: (EventInput, string) -> JsValue, indexed: seq<EventInput>, topics: seq<string>, n: nat, y: string)
    requires 0 < n <= |indexed|
    ensures y in IndexedArgs(value, indexed, topics, n) <==>
      y in IndexedArgs(value, indexed, topics, n - 1) || (TopicAt(topics, n) != "" && y == indexed[n - 1].name)
  {
  }

  /** One iteration of the indexed loop sets the input's own entry and keeps
      every other. */
  lemma IndexedArgsStepValue(value: (EventInput, string) -> JsValue, indexed: seq<EventInput>, topics: seq<string>, n: nat, y: string)
    requires 0 < n <= |indexed|
    requires y in IndexedArgs(value, indexed, topics, n)
    ensures var prev := IndexedArgs(value, indexed, topics, n - 1);
      var t := TopicAt(topics, n);
      IndexedArgs(value, indexed, topics, n)[y] ==
        if t != "" && y == indexed[n - 1].name then value(indexed[n - 1], t) else prev[y]
  {
  }

  /** A name no input among the first `n` carries is never assigned. */
  lemma {:induction false} IndexedArgsAbsent(value: (EventInput, string) -> JsValue, indexed: seq<EventInput>, topics: seq<string>, n: nat, x: string)
    requires n <= |indexed|
    requires forall k :: 0 <= k < n ==> indexed[k].name != x
    ensures x !in IndexedArgs(value, indexed, topics, n)
  {
    if n > 0 {
      assert indexed[n - 1].name != x;
      IndexedArgsAbsent(value, indexed, topics, n - 1, x);
      IndexedArgsStepDomain(value, indexed, topics, n, x);
    }
  }

  /** After `n` iterations of the data loop, the k-th non-indexed input holds
      its decoded value. */
  lemma {:induction false} DataArgAt(tron: TronWeb, base: map<string, JsValue>, nonIndexed: seq<EventInput>, decoded: seq<JsValue>, n: nat, k: nat)
    requires k < n <= |nonIndexed| && DistinctNames(nonIndexed)
    ensures var args := DataArgs(tron, base, nonIndexed, decoded, n);
      nonIndexed[k].name in args && args[nonIndexed[k].name] == DataValue(tron, nonIndexed[k], decoded, k)
  {
    if k < n - 1 {
      DataArgAt(tron, base, nonIndexed, decoded, n - 1, k);
      assert nonIndexed[k].name != nonIndexed[n - 1].name;
    }
  }

  /** The data loop leaves every name it does not assign as it was in `base`. */
  lemma {:induction false} DataArgsKeep(tron: TronWeb, base: map<string, JsValue>, nonIndexed: seq<EventInput>, decoded: seq<JsValue>, n: nat, x: string)
    requires n <= |nonIndexed|
    requires forall k :: 0 <= k < n ==> nonIndexed[k].name != x
    ensures var args := DataArgs(tron, base, nonIndexed, decoded, n);
      (x in args <==> x in base) && (x in base ==> args[x] == base[x])
  {
    if n > 0 {
      DataArgsKeep(tron, base, nonIndexed, decoded, n - 1, x);
    }
  }

  lemma DistinctParts(a: seq<EventInput>, b: seq<EventInput>)
    requires DistinctNames(a + b)
    ensures DistinctNames(a) && DistinctNames(b)
    ensures forall i, j :: 0 <= i < |a| && 0 <= j < |b| ==> a[i].name != b[j].name
  {
    var all := a + b;
    forall i, j | 0 <= i < j < |a| ensures a[i].name != a[j].name {
      assert all[i] == a[i] && all[j] == a[j];
    }
    forall i, j | 0 <= i < j < |b| ensures b[i].name != b[j].name {
      assert all[|a| + i] == b[i] && all[|a| + j] == b[j];
    }
    forall i, j | 0 <= i < |a| && 0 <= j < |b| ensures a[i].name != b[j].name {
      assert all[i] == a[i] && all[|a| + j] == b[j];
    }
  }

  /** The arguments of a successful decode: the indexed loop's assignments,
      followed by the data loop's when the event has non-indexed inputs. */
  lemma DecodedArgsAre(tron: TronWeb, log: Log, abi: EventAbi)
    requires TryDecodeLog(tron, log, abi).Normal? && TryDecodeLog(tron, log, abi).value.Some?
    ensures var indexed := Select(abi.inputs, true);
      var nonIndexed := Select(abi.inputs, false);
      var args := IndexedArgs(TopicDecoder(tron), indexed, log.topics, |indexed|);
      var decoded := tron.decodeParams(Types(nonIndexed), DataHex(log.data));
      TryDecodeLog(tron, log, abi).value.value.args ==
        if |nonIndexed| == 0 then args else DataArgs(tron, args, nonIndexed, decoded.value, |nonIndexed|)
  {
  }

  /** In a successful decode of a well-formed event, the k-th indexed input is
      present exactly when topic k+1 is non-empty, and then holds the value
      read from that topic (an address from its last 40 hex characters,
      anything else normalised). */
  lemma DecodedIndexedArgs(tron: TronWeb, log: Log, abi: EventAbi, k: nat)
    requires WellFormedAbi(abi)
    requires TryDecodeLog(tron, log, abi).Normal? && TryDecodeLog(tron, log, abi).value.Some?
    requires k < |Select(abi.inputs, true)|
    ensures var ev := TryDecodeLog(tron, log, abi).value.value;
      var input := Select(abi.inputs, true)[k];
      var topic := TopicAt(log.topics, k + 1);
      && (input.name in ev.args <==> topic != "")
      && (topic != "" ==> ev.args[input.name] == IndexedValue(tron, input, topic))
  {
    var indexed := Select(abi.inputs, true);
    var nonIndexed := Select(abi.inputs, false);
    DistinctParts(indexed, nonIndexed);
    DecodedArgsAre(tron, log, abi);
    var args := IndexedArgs(TopicDecoder(tron), indexed, log.topics, |indexed|);
    IndexedArgAt(TopicDecoder(tron), indexed, log.topics, |indexed|, k);
    if |nonIndexed| > 0 {
      var decoded := tron.decodeParams(Types(nonIndexed), DataHex(log.data));
      DataArgsKeep(tron, args, nonIndexed, decoded.value, |nonIndexed|, indexed[k].name);
    }
  }

  /** In a successful decode of a well-formed event with non-indexed inputs,
      the data decoder did not throw and the k-th non-indexed input holds the
      k-th decoded value (converted when its type is `address`). */
  lemma DecodedDataArgs(tron: TronWeb, log: Log, abi: EventAbi, k: nat)
    requires WellFormedAbi(abi)
    requires TryDecodeLog(tron, log, abi).Normal? && TryDecodeLog(tron, log, abi).value.Some?
    requires k < |Select(abi.inputs, false)|
    ensures var nonIndexed := Select(abi.inputs, false);
      var decoded := tron.decodeParams(Types(nonIndexed), DataHex(log.data));
      var ev := TryDecodeLog(tron, log, abi).value.value;
      && decoded.Normal?
      && nonIndexed[k].name in ev.args
      && ev.args[nonIndexed[k].name] == DataValue(tron, nonIndexed[k], decoded.value, k)
  {
    var indexed := Select(abi.inputs, true);
    var nonIndexed := Select(abi.inputs, false);
    DistinctParts(indexed, nonIndexed);
    DecodedArgsAre(tron, log, abi);
    var args := IndexedArgs(TopicDecoder(tron), indexed, log.topics, |indexed|);
    var decoded := tron.decodeParams(Types(nonIndexed), DataHex(log.data));
    DataArgAt(tron, args, nonIndexed, decoded.value, |nonIndexed|, k);
  }

  // ---------------------------------------------------------------------------
  // decodePaymentEvent / decodeMerchantRegistryEvent
  // ---------------------------------------------------------------------------

  /** The inner loop over ABI events for one log: the first entry whose
      decode is not null wins (an error thrown while decoding also ends the search). */
  function DecodeInLog(tron: TronWeb, log: Log, events: seq<EventAbi>): Completion<Option<DecodedEvent>> {
    match FirstIndex(events, (abi: EventAbi) => TryDecodeLog(tron, log, abi) != Normal(None))
    case None => Normal(None)
    case Some(j) => TryDecodeLog(tron, log, events[j])
  }

  /** `decodePaymentEvent` / `decodeMerchantRegistryEvent` over `txInfo.log`
      (an absent list is empty): logs in order, and within a log the ABI
      events in order; the first decode that is not null is returned. */
  function DecodeEvent(tron: TronWeb, logs: seq<Log>, events: seq<EventAbi>): Completion<Option<DecodedEvent>> {
    match FirstIndex(logs, (log: Log) => DecodeInLog(tron, log, events) != Normal(None))
    case None => Normal(None)
    case Some(i) => DecodeInLog(tron, logs[i], events)
  }

  /** Log `i` with ABI event `j` is the first pair, in log-major order, whose
      decode is not null. */
  predicate FirstDecodable(tron: TronWeb, logs: seq<Log>, events: seq<EventAbi>, i: nat, j: nat)
    requires i < |logs| && j < |events|
  {
    && TryDecodeLog(tron, logs[i], events[j]) != Normal(None)
    && (forall i', j' :: 0 <= i' < i && 0 <= j' < |events| ==> TryDecodeLog(tron, logs[i'], events[j']) == Normal(None))
    && (forall j' :: 0 <= j' < j ==> TryDecodeLog(tron, logs[i], events[j']) == Normal(None))
  }

  /** The search order is "first log, then first ABI event": the result is
      null exactly when no log decodes with any event, and otherwise it is the
      decode of the first decodable (log, event) pair. A missing or empty log
      list gives null. */
  lemma DecodeEventFirstMatch(tron: TronWeb, logs: seq<Log>, events: seq<EventAbi>)
    ensures DecodeEvent(tron, logs, events) == Normal(None) <==>
      forall i, j :: 0 <= i < |logs| && 0 <= j < |events| ==> TryDecodeLog(tron, logs[i], events[j]) == Normal(None)
    ensures DecodeEvent(tron, logs, events) != Normal(None) ==>
      exists i, j :: 0 <= i < |logs| && 0 <= j < |events| && FirstDecodable(tron, logs, events, i, j)
        && DecodeEvent(tron, logs, events) == TryDecodeLog(tron, logs[i], events[j])
  {
    var pl := (log: Log) => DecodeInLog(tron, log, events) != Normal(None);
    var fi := FirstIndex(logs, pl);
    if fi.Some? {
      var i := fi.value;
      var pe := (abi: EventAbi) => TryDecodeLog(tron, logs[i], abi) != Normal(None);
      var fj := FirstIndex(events, pe);
      var j := fj.value;
      forall i', j' | 0 <= i' < i && 0 <= j' < |events|
        ensures TryDecodeLog(tron, logs[i'], events[j']) == Normal(None)
      {
        assert !pl(logs[i']);
        var pe' := (abi: EventAbi) => TryDecodeLog(tron, logs[i'], abi) != Normal(None);
        assert FirstIndex(events, pe').None?;
        assert !pe'(events[j']);
      }
      assert FirstDecodable(tron, logs, events, i, j);
    } else {
      forall i, j | 0 <= i < |logs| && 0 <= j < |events|
        ensures TryDecodeLog(tron, logs[i], events[j]) == Normal(None)
      {
        assert !pl(logs[i]);
        var pe := (abi: EventAbi) => TryDecodeLog(tron, logs[i], abi) != Normal(None);
        assert FirstIndex(events, pe).None?;
        assert !pe(events[j]);
      }
    }
  }
}
