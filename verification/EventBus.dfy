/**
 The dual-write event bus: Redis streams and Kafka topics, written side by side, each of which may
 fail on its own.  A log is the sequence of what was appended to it; a rejected write appends nothing.
 */
module EventBus {
  import opened Text

  /** A field value: a string goes out as it is, anything else as its JSON text. */
  datatype Value = Str(s: string) | Json(text: string)

  /** `Object.entries(data)` */
  type Data = seq<(string, Value)>

  /** The arguments of `XADD`: names and texts in turn. */
  type Entry = seq<string>

  /** A Kafka message; its value is the JSON text of the data. */
  datatype Message = Message(key: string, data: Data)

  const STREAM_TO_TOPIC: map<string, string> := map[
    "deposits:detected" := "cvh.deposits.detected",
    "deposits:confirmation" := "cvh.deposits.confirmed",
    "deposits:swept" := "cvh.deposits.swept",
    "withdrawals:submitted" := "cvh.withdrawals.lifecycle",
    "withdrawals:confirmed" := "cvh.withdrawals.lifecycle",
    "withdrawals:failed" := "cvh.withdrawals.lifecycle",
    "cosign:pending" := "cvh.cosign.lifecycle",
    "cosign:signed" := "cvh.cosign.lifecycle",
    "cosign:expired" := "cvh.cosign.lifecycle",
    "gas_tank:alerts" := "cvh.gas-tank.alerts",
    "chain:reorg" := "cvh.reorg.detected",
    "reconciliation:discrepancies" := "cvh.reconciliation.discrepancy",
    "forwarder:deploy" := "cvh.forwarder.deploy",
    "sanctions:sync" := "cvh.sanctions.sync"]

  datatype Config = Config(redis: bool, kafka: bool, topics: map<string, string>)

  /** What the transports do during one publish. */
  datatype Net = Net(redisOk: bool, connectOk: bool, sendOk: bool)

  datatype Bus = Bus(streams: map<string, seq<Entry>>, topics: map<string, seq<Message>>, connected: bool)

  function Log<T>(logs: map<string, seq<T>>, name: string): seq<T> {
    if name in logs then logs[name] else []
  }

  function Append<T>(logs: map<string, seq<T>>, name: string, e: T): map<string, seq<T>> {
    logs[name := Log(logs, name) + [e]]
  }

  // ---------- the transports ----------

  function FieldsOf(data: Data): Entry {
    if data == [] then []
    else [data[0].0, match data[0].1 case Str(s) => s case Json(text) => text] + FieldsOf(data[1..])
  }

  /** Every name with its text, in order and nothing else. */
  predicate IsEntry(entry: Entry, data: Data) {
    && |entry| == 2 * |data|
    && forall i :: 0 <= i < |data| ==>
         && entry[2 * i] == data[i].0
         && entry[2 * i + 1] == match data[i].1 case Str(s) => s case Json(text) => text
  }

  lemma {:induction false} FieldsAreEntry(data: Data)
    ensures IsEntry(FieldsOf(data), data)
  {
    if data != [] {
      FieldsAreEntry(data[1..]);
      var entry, rest := FieldsOf(data), FieldsOf(data[1..]);
      assert entry[2..] == rest;
      forall i | 0 <= i < |data|
        ensures entry[2 * i] == data[i].0
        ensures entry[2 * i + 1] == match data[i].1 case Str(s) => s case Json(text) => text
      {
        if i > 0 {
          assert entry[2 * i] == rest[2 * (i - 1)] && entry[2 * i + 1] == rest[2 * (i - 1) + 1];
        }
      }
    }
  }

  lemma OneEntry(a: Entry, b: Entry, data: Data)
    requires IsEntry(a, data) && IsEntry(b, data)
    ensures a == b
  {
    forall k | 0 <= k < |a| ensures a[k] == b[k] {
      var i := k / 2;
      assert a[2 * i] == b[2 * i] && a[2 * i + 1] == b[2 * i + 1];
      assert k == 2 * i || k == 2 * i + 1;
    }
  }

  /** `XADD`: Redis refuses an entry without fields. */
  predicate RedisAccepts(data: Data, net: Net) {
    net.redisOk && data != []
  }

  function ToRedis(b: Bus, stream: string, data: Data, net: Net): (Bus, bool) {
    if RedisAccepts(data, net) then (b.(streams := Append(b.streams, stream, FieldsOf(data))), true) else (b, false)
  }

  /** A producer that cannot connect skips the message and resolves. */
  function ToKafka(b: Bus, topic: string, m: Message, net: Net): (Bus, bool) {
    if !b.connected && !net.connectOk then (b, true)
    else if net.sendOk then (b.(connected := true, topics := Append(b.topics, topic, m)), true)
    else (b.(connected := true), false)
  }

  // ---------- publishing ----------

  datatype Call =
    | Publish(stream: string, key: string, data: Data, net: Net)
    | PublishToKafka(topic: string, key: string, data: Data, net: Net)

  /** The topic a call writes to, if Kafka is tried. */
  function TopicOf(cfg: Config, c: Call): Option<string> {
    if !cfg.kafka then None
    else
      match c
      case Publish(stream, _, _, _) => if stream in cfg.topics then Some(cfg.topics[stream]) else None
      case PublishToKafka(topic, _, _, _) => Some(topic)
  }

  predicate TriesRedis(cfg: Config, c: Call) {
    cfg.redis && c.Publish?
  }

  /** The settled results of the transports tried, Redis first. */
  function Settle(cfg: Config, b: Bus, c: Call): (Bus, seq<bool>) {
    var (b1, results) :=
      if TriesRedis(cfg, c) then (var (b1, ok) := ToRedis(b, c.stream, c.data, c.net); (b1, [ok])) else (b, []);
    match TopicOf(cfg, c)
    case None => (b1, results)
    case Some(topic) => var (b2, ok) := ToKafka(b1, topic, Message(c.key, c.data), c.net); (b2, results + [ok])
  }

  predicate Throws(results: seq<bool>) {
    results != [] && forall i :: 0 <= i < |results| ==> !results[i]
  }

  function After(cfg: Config, connected: bool, calls: seq<Call>): Bus {
    if calls == [] then Bus(map[], map[], connected)
    else Settle(cfg, After(cfg, connected, calls[..|calls| - 1]), calls[|calls| - 1]).0
  }

  /**
   A publish throws exactly when a transport was tried and every transport tried rejected: Redis, when
   enabled, refused the entry, and Kafka, when the stream has a topic, was reached and refused it.
   */
  lemma ThrowsExactly(cfg: Config, b: Bus, c: Call)
    ensures var kafka := TopicOf(cfg, c).Some?;
            Throws(Settle(cfg, b, c).1) <==>
            && (TriesRedis(cfg, c) || kafka)
            && (TriesRedis(cfg, c) ==> !c.net.redisOk || c.data == [])
            && (kafka ==> (b.connected || c.net.connectOk) && !c.net.sendOk)
    ensures var (b', results) := Settle(cfg, b, c);
            Throws(results) ==> b'.streams == b.streams && b'.topics == b.topics
  {
    var results := Settle(cfg, b, c).1;
    if TriesRedis(cfg, c) {
      assert results[0] == RedisAccepts(c.data, c.net);
    }
    if TopicOf(cfg, c).Some? {
      assert results[|results| - 1] == ((!b.connected && !c.net.connectOk) || c.net.sendOk);
    }
  }

  /** A log that gained something differs from before. */
  lemma AppendChanges<T>(logs: map<string, seq<T>>, name: string, e: T)
    ensures Append(logs, name, e) != logs
  {
    assert |Append(logs, name, e)[name]| == |Log(logs, name)| + 1;
  }

  /**
   A publish that does not throw can still reach neither log, exactly when no transport was tried, or
   Kafka was skipped because it could not connect and Redis did not take the event either.
   */
  lemma LostSilently(cfg: Config, b: Bus, c: Call)
    ensures var (b', results) := Settle(cfg, b, c);
            var kafka := TopicOf(cfg, c).Some?;
            (b'.streams == b.streams && b'.topics == b.topics && !Throws(results)) <==>
            && (TriesRedis(cfg, c) ==> (!c.net.redisOk || c.data == []) && kafka)
            && (kafka ==> !b.connected && !c.net.connectOk)
  {
    var (b', results) := Settle(cfg, b, c);
    if TriesRedis(cfg, c) {
      assert results[0] == RedisAccepts(c.data, c.net);
      AppendChanges(b.streams, c.stream, FieldsOf(c.data));
    }
    if TopicOf(cfg, c).Some? {
      AppendChanges(b.topics, TopicOf(cfg, c).value, Message(c.key, c.data));
      assert results[|results| - 1] == ((!b.connected && !c.net.connectOk) || c.net.sendOk);
    }
  }

  // ---------- order ----------

  /** `a` is `b` with elements left out. */
  ghost predicate Subsequence<T>(a: seq<T>, b: seq<T>) {
    exists at: seq<nat> :: Picks(a, b, at)
  }

  ghost predicate Picks<T>(a: seq<T>, b: seq<T>, at: seq<nat>) {
    && |at| == |a|
    && (forall i :: 0 <= i < |at| ==> at[i] < |b| && a[i] == b[at[i]])
    && (forall i, j :: 0 <= i < j < |at| ==> at[i] < at[j])
  }

  lemma SubsequenceSkip<T>(a: seq<T>, b: seq<T>, e: T)
    requires Subsequence(a, b)
    ensures Subsequence(a, b + [e])
  {
    var at: seq<nat> :| Picks(a, b, at);
    assert Picks(a, b + [e], at);
  }

  lemma SubsequenceTake<T>(a: seq<T>, b: seq<T>, e: T)
    requires Subsequence(a, b)
    ensures Subsequence(a + [e], b + [e])
  {
    var at: seq<nat> :| Picks(a, b, at);
    assert Picks(a + [e], b + [e], at + [|b|]);
  }

  /** The calls that publish on a stream, in order. */
  function OnStream(calls: seq<Call>, stream: string): seq<Call> {
    if calls == [] then []
    else
      var c := calls[|calls| - 1];
      OnStream(calls[..|calls| - 1], stream) + (if c.Publish? && c.stream == stream then [c] else [])
  }

  /** The calls meant for a topic, in order. */
  function Meant(cfg: Config, calls: seq<Call>, topic: string): seq<Call> {
    if calls == [] then []
    else
      var c := calls[|calls| - 1];
      Meant(cfg, calls[..|calls| - 1], topic) + (if TopicOf(cfg, c) == Some(topic) then [c] else [])
  }

  function Entries(calls: seq<Call>): seq<Entry> {
    if calls == [] then [] else Entries(calls[..|calls| - 1]) + [FieldsOf(calls[|calls| - 1].data)]
  }

  function Messages(calls: seq<Call>): seq<Message> {
    if calls == [] then []
    else
      var c := calls[|calls| - 1];
      Messages(calls[..|calls| - 1]) + [Message(c.key, c.data)]
  }

  lemma OneMoreCall(calls: seq<Call>, c: Call)
    ensures Entries(calls + [c]) == Entries(calls) + [FieldsOf(c.data)]
    ensures Messages(calls + [c]) == Messages(calls) + [Message(c.key, c.data)]
    ensures calls + [] == calls
  {
    assert (calls + [c])[..|calls|] == calls;
  }

  predicate RedisTakes(cfg: Config, c: Call, stream: string) {
    TriesRedis(cfg, c) && c.stream == stream && RedisAccepts(c.data, c.net)
  }

  predicate KafkaTakes(cfg: Config, b: Bus, c: Call, topic: string) {
    TopicOf(cfg, c) == Some(topic) && (b.connected || c.net.connectOk) && c.net.sendOk
  }

  /** What one call does to the logs. */
  lemma SettleLogs(cfg: Config, b: Bus, c: Call, name: string)
    ensures var b' := Settle(cfg, b, c).0;
            && Log(b'.streams, name)
               == Log(b.streams, name) + (if RedisTakes(cfg, c, name) then [FieldsOf(c.data)] else [])
            && Log(b'.topics, name)
               == Log(b.topics, name) + (if KafkaTakes(cfg, b, c, name) then [Message(c.key, c.data)] else [])
  {
  }

  /** Whatever fails, each stream and each topic keeps what was meant for it in publish order. */
  lemma {:induction false} LogsKeepOrder(cfg: Config, connected: bool, calls: seq<Call>, name: string)
    ensures Subsequence(Log(After(cfg, connected, calls).streams, name), Entries(OnStream(calls, name)))
    ensures Subsequence(Log(After(cfg, connected, calls).topics, name), Messages(Meant(cfg, calls, name)))
  {
    if calls == [] {
      assert Picks<Entry>([], [], []) && Picks<Message>([], [], []);
    } else {
      var prev, c := calls[..|calls| - 1], calls[|calls| - 1];
      var (b, b') := (After(cfg, connected, prev), After(cfg, connected, calls));
      LogsKeepOrder(cfg, connected, prev, name);
      SettleLogs(cfg, b, c, name);
      hide Settle, Entries, Messages, Log;
      OneMoreCall(OnStream(prev, name), c);
      OneMoreCall(Meant(cfg, prev, name), c);
      OneMore(Log(b.streams, name), Log(b'.streams, name),
              Entries(OnStream(prev, name)), Entries(OnStream(calls, name)), FieldsOf(c.data));
      OneMore(Log(b.topics, name), Log(b'.topics, name),
              Messages(Meant(cfg, prev, name)), Messages(Meant(cfg, calls, name)), Message(c.key, c.data));
    }
  }

  lemma OneMore<T>(a: seq<T>, a': seq<T>, b: seq<T>, b': seq<T>, e: T)
    requires Subsequence(a, b)
    requires (a' == a + [] && (b' == b || b' == b + [e])) || (a' == a + [e] && b' == b + [e])
    ensures Subsequence(a', b')
  {
    assert a + [] == a;
    if a' == a + [e] && b' == b + [e] {
      SubsequenceTake(a, b, e);
    } else if b' == b + [e] {
      SubsequenceSkip(a, b, e);
    }
  }

  // ---------- without failures ----------

  /** Both transports are on, the producer is or gets connected, nothing fails, and no event is empty. */
  predicate FailureFree(cfg: Config, connected: bool, calls: seq<Call>) {
    && cfg.redis && cfg.kafka
    && forall i :: 0 <= i < |calls| ==>
         calls[i].net.sendOk && calls[i].net.redisOk && (connected || calls[i].net.connectOk) && calls[i].data != []
  }

  lemma OnStreamNext(calls: seq<Call>, c: Call, stream: string)
    ensures OnStream(calls + [c], stream)
            == OnStream(calls, stream) + (if c.Publish? && c.stream == stream then [c] else [])
  {
    assert (calls + [c])[..|calls|] == calls;
  }

  lemma {:induction false} StaysConnected(cfg: Config, calls: seq<Call>)
    ensures After(cfg, true, calls).connected
  {
    if calls != [] {
      StaysConnected(cfg, calls[..|calls| - 1]);
    }
  }

  /** Without failures every call is delivered. */
  lemma Delivered(cfg: Config, connected: bool, calls: seq<Call>, b: Bus, name: string)
    requires FailureFree(cfg, connected, calls) && calls != []
    requires b == After(cfg, connected, calls[..|calls| - 1])
    ensures var (c, b') := (calls[|calls| - 1], After(cfg, connected, calls));
            && Log(b'.streams, name)
               == Log(b.streams, name) + (if c.Publish? && c.stream == name then [FieldsOf(c.data)] else [])
            && Log(b'.topics, name)
               == Log(b.topics, name) + (if TopicOf(cfg, c) == Some(name) then [Message(c.key, c.data)] else [])
  {
    var c := calls[|calls| - 1];
    if connected {
      StaysConnected(cfg, calls[..|calls| - 1]);
    }
    SettleLogs(cfg, b, c, name);
  }

  /** Of the calls meant for a stream's topic, those on the stream are all that publish on it. */
  lemma {:induction false} MeantOnStream(cfg: Config, calls: seq<Call>, stream: string)
    requires cfg.kafka && stream in cfg.topics
    ensures OnStream(Meant(cfg, calls, cfg.topics[stream]), stream) == OnStream(calls, stream)
  {
    if calls != [] {
      var prev, c := calls[..|calls| - 1], calls[|calls| - 1];
      MeantOnStream(cfg, prev, stream);
      var meant := Meant(cfg, prev, cfg.topics[stream]);
      OnStreamNext(meant, c, stream);
      assert meant + [] == meant;
      assert OnStream(prev, stream) + [] == OnStream(prev, stream);
    }
  }

  /**
   Without failures nothing is lost: each stream holds exactly the entries published on it, each topic
   exactly the messages meant for it, and the stream is what its topic holds of calls on the stream.
   */
  lemma {:induction false} FailureFreeAgree(cfg: Config, connected: bool, calls: seq<Call>, name: string)
    requires FailureFree(cfg, connected, calls)
    ensures Log(After(cfg, connected, calls).streams, name) == Entries(OnStream(calls, name))
    ensures Log(After(cfg, connected, calls).topics, name) == Messages(Meant(cfg, calls, name))
    ensures name in cfg.topics ==>
              Log(After(cfg, connected, calls).streams, name)
              == Entries(OnStream(Meant(cfg, calls, cfg.topics[name]), name))
  {
    if calls != [] {
      hide Settle, TopicOf, Entries, Messages;
      var prev, c := calls[..|calls| - 1], calls[|calls| - 1];
      FailureFreeAgree(cfg, connected, prev, name);
      Delivered(cfg, connected, calls, After(cfg, connected, prev), name);
      OneMoreCall(OnStream(prev, name), c);
      OneMoreCall(Meant(cfg, prev, name), c);
    }
    if name in cfg.topics {
      MeantOnStream(cfg, calls, name);
    }
  }

  // ---------- the services ----------

  method FieldPairs(data: Data) returns (fields: Entry)
    ensures IsEntry(fields, data)
  {
    fields := [];
    for i := 0 to |data|
      invariant IsEntry(fields, data[..i])
    {
      fields := fields + [data[i].0, match data[i].1 case Str(s) => s case Json(text) => text];
    }
    assert data[..|data|] == data;
  }

  /** The topic a stream should go to. */
  ghost function TopicFor(stream: string): Option<string> {
    match stream
    case "deposits:detected" => Some("cvh.deposits.detected")
    case "deposits:confirmation" => Some("cvh.deposits.confirmed")
    case "deposits:swept" => Some("cvh.deposits.swept")
    case "gas_tank:alerts" => Some("cvh.gas-tank.alerts")
    case "chain:reorg" => Some("cvh.reorg.detected")
    case "reconciliation:discrepancies" => Some("cvh.reconciliation.discrepancy")
    case "forwarder:deploy" => Some("cvh.forwarder.deploy")
    case "sanctions:sync" => Some("cvh.sanctions.sync")
    case _ =>
      if stream in {"withdrawals:submitted", "withdrawals:confirmed", "withdrawals:failed"}
      then Some("cvh.withdrawals.lifecycle")
      else if stream in {"cosign:pending", "cosign:signed", "cosign:expired"} then Some("cvh.cosign.lifecycle")
      else None
  }

  lemma TopicsAreMapped(stream: string)
    ensures TopicFor(stream) == if stream in STREAM_TO_TOPIC then Some(STREAM_TO_TOPIC[stream]) else None
  {
  }

  /** One log has one element more, at its end; the others are as before. */
  ghost predicate Gained<T>(before: map<string, seq<T>>, after: map<string, seq<T>>, name: string, e: T) {
    after == before[name := (if name in before then before[name] else []) + [e]]
  }

  /** A stream has one entry more: every name and text of the data, in order. */
  ghost predicate GainedFields(
      before: map<string, seq<Entry>>, after: map<string, seq<Entry>>, name: string, data: Data) {
    exists entry: Entry :: IsEntry(entry, data) && Gained(before, after, name, entry)
  }

  class KafkaProducer {
    var connected: bool
    var topics: map<string, seq<Message>>

    constructor ()
      ensures !connected && topics == map[]
    {
      connected, topics := false, map[];
    }

    method OnModuleInit(connectOk: bool)
      modifies this`connected
      ensures connected == (old(connected) || connectOk)
    {
      if connectOk {
        connected := true;
      }
    }

    /** False is a rejected promise. */
    method Publish(topic: string, key: string, value: Data, net: Net) returns (resolved: bool)
      modifies this
      ensures connected == (old(connected) || net.connectOk)
      ensures resolved <==> !connected || net.sendOk
      ensures if connected && net.sendOk then Gained(old(topics), topics, topic, Message(key, value))
              else topics == old(topics)
    {
      if !connected {
        if !net.connectOk {
          return true;
        }
        connected := true;
      }
      if !net.sendOk {
        return false;
      }
      topics := topics[topic := (if topic in topics then topics[topic] else []) + [Message(key, value)]];
      return true;
    }
  }

  class EventBusService {
    const producer: KafkaProducer
    const enableRedisStreams: bool
    const enableKafka: bool
    var streams: map<string, seq<Entry>>

    constructor (producer: KafkaProducer, enableRedisStreams: bool, enableKafka: bool)
      ensures this.producer == producer && streams == map[]
      ensures this.enableRedisStreams == enableRedisStreams && this.enableKafka == enableKafka
    {
      this.producer, streams := producer, map[];
      this.enableRedisStreams, this.enableKafka := enableRedisStreams, enableKafka;
    }

    function Contents(): Bus
      reads this, producer
    {
      Bus(streams, producer.topics, producer.connected)
    }

    function Settings(): Config {
      Config(enableRedisStreams, enableKafka, STREAM_TO_TOPIC)
    }

    method PublishToRedisStream(stream: string, data: Data, net: Net) returns (resolved: bool)
      modifies this`streams
      ensures (Contents(), resolved) == ToRedis(old(Contents()), stream, data, net)
      ensures resolved <==> net.redisOk && data != []
      ensures if resolved then GainedFields(old(streams), streams, stream, data) else streams == old(streams)
    {
      var fields := FieldPairs(data);
      FieldsAreEntry(data);
      OneEntry(fields, FieldsOf(data), data);
      if fields == [] || !net.redisOk {
        return false;
      }
      streams := streams[stream := (if stream in streams then streams[stream] else []) + [fields]];
      assert Gained(old(streams), streams, stream, fields);
      return true;
    }

    /** Kafka is tried for this stream, and reached. */
    ghost predicate Reaches(connectedBefore: bool, stream: string, net: Net) {
      enableKafka && TopicFor(stream).Some? && (connectedBefore || net.connectOk)
    }

    /** Push a promise for each transport to try, and let them settle. */
    method SettleAll(stream: string, key: string, data: Data, net: Net) returns (results: seq<bool>)
      modifies this, producer
      ensures (Contents(), results) == Settle(Settings(), old(Contents()), Call.Publish(stream, key, data, net))
      ensures if enableRedisStreams && net.redisOk && data != []
              then GainedFields(old(streams), streams, stream, data)
              else streams == old(streams)
      ensures if Reaches(old(producer.connected), stream, net) && net.sendOk
              then Gained(old(producer.topics), producer.topics, TopicFor(stream).value, Message(key, data))
              else producer.topics == old(producer.topics)
      ensures producer.connected == (old(producer.connected) || Reaches(old(producer.connected), stream, net))
    {
      hide GainedFields, TopicFor, FieldsOf;
      TopicsAreMapped(stream);
      results := [];
      if enableRedisStreams {
        var ok := PublishToRedisStream(stream, data, net);
        results := results + [ok];
      }
      ghost var b := Contents();
      if enableKafka {
        if stream in STREAM_TO_TOPIC {
          var ok := producer.Publish(STREAM_TO_TOPIC[stream], key, data, net);
          assert (Contents(), ok) == ToKafka(b, STREAM_TO_TOPIC[stream], Message(key, data), net);
          results := results + [ok];
        }
      }
      assert results == Settle(Settings(), old(Contents()), Call.Publish(stream, key, data, net)).1;
    }

    /**
     `publish`: true means it threw.  When Redis takes the entry, the stream gains every name and text
     of the data in order; when Kafka takes the message, the stream's topic gains the key and the data.
     */
    method Publish(stream: string, key: string, data: Data, net: Net) returns (thrown: bool)
      modifies this, producer
      ensures Contents() == Settle(Settings(), old(Contents()), Call.Publish(stream, key, data, net)).0
      ensures thrown == Throws(Settle(Settings(), old(Contents()), Call.Publish(stream, key, data, net)).1)
      ensures if enableRedisStreams && net.redisOk && data != []
              then GainedFields(old(streams), streams, stream, data)
              else streams == old(streams)
      ensures if Reaches(old(producer.connected), stream, net) && net.sendOk
              then Gained(old(producer.topics), producer.topics, TopicFor(stream).value, Message(key, data))
              else producer.topics == old(producer.topics)
      ensures producer.connected == (old(producer.connected) || Reaches(old(producer.connected), stream, net))
      ensures thrown <==>
              && (enableRedisStreams || (enableKafka && TopicFor(stream).Some?))
              && (enableRedisStreams ==> !net.redisOk || data == [])
              && (enableKafka && TopicFor(stream).Some? ==>
                    Reaches(old(producer.connected), stream, net) && !net.sendOk)
    {
      hide Settle, GainedFields, Gained, TopicFor;
      TopicsAreMapped(stream);
      ThrowsExactly(Settings(), Contents(), Call.Publish(stream, key, data, net));
      var results := SettleAll(stream, key, data, net);
      thrown := |results| > 0;
      for i := 0 to |results|
        invariant thrown <==> |results| > 0 && forall k :: 0 <= k < i ==> !results[k]
      {
        thrown := thrown && !results[i];
      }
    }

    method PublishToKafka(topic: string, key: string, data: Data, net: Net) returns (thrown: bool)
      modifies producer
      ensures Contents() == Settle(Settings(), old(Contents()), Call.PublishToKafka(topic, key, data, net)).0
      ensures thrown == Throws(Settle(Settings(), old(Contents()), Call.PublishToKafka(topic, key, data, net)).1)
      ensures thrown <==> enableKafka && (old(producer.connected) || net.connectOk) && !net.sendOk
      ensures if enableKafka && (old(producer.connected) || net.connectOk) && net.sendOk
              then Gained(old(producer.topics), producer.topics, topic, Message(key, data))
              else producer.topics == old(producer.topics)
    {
      if !enableKafka {
        return false;
      }
      var ok := producer.Publish(topic, key, data, net);
      var results := [] + [ok];
      assert results[0] == ok;
      return !ok;
    }

    method Perform(c: Call) returns (thrown: bool)
      modifies this, producer
      ensures Contents() == Settle(Settings(), old(Contents()), c).0
      ensures thrown == Throws(Settle(Settings(), old(Contents()), c).1)
    {
      match c
      case Publish(stream, key, data, net) => thrown := Publish(stream, key, data, net);
      case PublishToKafka(topic, key, data, net) => thrown := PublishToKafka(topic, key, data, net);
    }

    /** What the calls of a run threw. */
    ghost predicate ThrownAsSettled(connected: bool, calls: seq<Call>, thrown: seq<bool>) {
      && |thrown| <= |calls|
      && forall k :: 0 <= k < |thrown| ==>
           thrown[k] == Throws(Settle(Settings(), After(Settings(), connected, calls[..k]), calls[k]).1)
    }

    /**
     Any run of awaited publishes on a fresh service, after the producer tried to connect: the logs are
     those `After` speaks about, each keeps the events meant for it in publish order, and each call
     throws or not as its settled results say.
     */
    method Serve(connectOk: bool, calls: seq<Call>) returns (thrown: seq<bool>)
      requires Contents() == Bus(map[], map[], false)
      modifies this, producer
      ensures Contents() == After(Settings(), connectOk, calls)
      ensures |thrown| == |calls| && ThrownAsSettled(connectOk, calls, thrown)
      ensures forall name :: Subsequence(Log(streams, name), Entries(OnStream(calls, name)))
      ensures forall name :: Subsequence(Log(producer.topics, name), Messages(Meant(Settings(), calls, name)))
    {
      hide Settle, Subsequence, Throws;
      producer.OnModuleInit(connectOk);
      thrown := [];
      assert calls[..0] == [];
      for i := 0 to |calls|
        invariant Contents() == After(Settings(), connectOk, calls[..i])
        invariant |thrown| == i && ThrownAsSettled(connectOk, calls, thrown)
      {
        var t := Perform(calls[i]);
        thrown := thrown + [t];
        assert calls[..i + 1][..i] == calls[..i];
      }
      assert calls[..|calls|] == calls;
      forall name
        ensures Subsequence(Log(streams, name), Entries(OnStream(calls, name)))
        ensures Subsequence(Log(producer.topics, name), Messages(Meant(Settings(), calls, name)))
      {
        LogsKeepOrder(Settings(), connectOk, calls, name);
      }
    }
  }
}
