/** Authenticated MQTT lock commands and the bounded window of nonces that stops replays. */
module CommandReplay {
  import opened Bytes
  import opened LockSpec
  import LockPipeline

  const WINDOW: nat := 32

  datatype Topic = UnlockTopic | LockTopic | OtherTopic

  datatype Fields = Fields(ts: nat, nonce: string, reqId: string, mac: string)

  /** A message with its payload parsed; None when it is malformed or lacks a field. */
  datatype Message = Message(topic: Topic, fields: Option<Fields>)

  /** The household key (empty when there is none), the wall clock, and the MAC as a function. */
  datatype Env = Env(enrolled: bool, key: bytes, now: int, macOf: (Fields, bool, bytes) -> string)

  /** Timestamps are checked only when the device has a wall clock. */
  predicate Timely(ts: nat, now: int) {
    now > 1000000000 ==> -300 <= ts - now <= 300
  }

  /** Everything but the replay check. */
  predicate Genuine(e: Env, m: Message) {
    && e.enrolled && !m.topic.OtherTopic? && e.key != [] && m.fields.Some?
    && m.fields.value.mac == e.macOf(m.fields.value, m.topic.UnlockTopic?, e.key)
    && Timely(m.fields.value.ts, e.now)
  }

  predicate Accepts(seen: seq<string>, e: Env, m: Message) {
    Genuine(e, m) && m.fields.value.nonce !in seen
  }

  function Remember(seen: seq<string>, nonce: string): seq<string> {
    var longer := seen + [nonce];
    if |longer| > WINDOW then longer[1..] else longer
  }

  function After(seen: seq<string>, e: Env, m: Message): seq<string> {
    if Accepts(seen, e, m) then Remember(seen, m.fields.value.nonce) else seen
  }

  function Posted(seen: seq<string>, e: Env, m: Message): seq<Event> {
    if Accepts(seen, e, m)
    then [TargetChanged(EventLockState(UNKNOWN, if m.topic.UnlockTopic? then UNLOCKED else LOCKED, MQTT))]
    else []
  }

  class MqttManager {
    const loop: LockPipeline.EventLoop
    var seenNonces: seq<string>

    constructor (loop: LockPipeline.EventLoop)
      ensures this.loop == loop && seenNonces == []
    {
      this.loop, seenNonces := loop, [];
    }

    /** `recognised` tells the caller not to try the message on the other topics. */
    method HandleSecureCommand(e: Env, m: Message) returns (recognised: bool)
      modifies this, loop
      ensures recognised <==> e.enrolled && !m.topic.OtherTopic?
      ensures seenNonces == After(old(seenNonces), e, m)
      ensures loop.posted == old(loop.posted) + Posted(old(seenNonces), e, m)
    {
      if !e.enrolled || m.topic.OtherTopic? {
        return false;
      }
      if e.key == [] || m.fields.None? {
        return true;
      }
      var f := m.fields.value;
      var expected := e.macOf(f, m.topic.UnlockTopic?, e.key);
      if |expected| != |f.mac| || expected != f.mac {
        return true;
      }
      if e.now > 1000000000 {
        var skew := f.ts - e.now;
        if skew < -300 || skew > 300 {
          return true;
        }
      }
      if f.nonce in seenNonces {
        return true;
      }
      seenNonces := seenNonces + [f.nonce];
      if |seenNonces| > WINDOW {
        seenNonces := seenNonces[1..];
      }
      var target := if m.topic.UnlockTopic? then UNLOCKED else LOCKED;
      loop.Publish(TargetChanged(EventLockState(UNKNOWN, target, MQTT)));
      return true;
    }
  }

  // ---- Traces ----

  datatype Delivery = Delivery(env: Env, message: Message)

  /** The window after a trace of deliveries, from an empty one. */
  function WindowAfter(trace: seq<Delivery>): seq<string> {
    if trace == [] then []
    else var n := |trace| - 1; After(WindowAfter(trace[..n]), trace[n].env, trace[n].message)
  }

  /** The nonces of the accepted messages, oldest first. */
  function AcceptedNonces(trace: seq<Delivery>): seq<string> {
    if trace == [] then []
    else
      var n := |trace| - 1;
      AcceptedNonces(trace[..n])
      + if Accepts(WindowAfter(trace[..n]), trace[n].env, trace[n].message) then [trace[n].message.fields.value.nonce] else []
  }

  /** Everything the trace posted. */
  function AllPosted(trace: seq<Delivery>): seq<Event> {
    if trace == [] then []
    else var n := |trace| - 1; AllPosted(trace[..n]) + Posted(WindowAfter(trace[..n]), trace[n].env, trace[n].message)
  }

  function LastOf(s: seq<string>, n: nat): seq<string> {
    s[|s| - Min(n, |s|)..]
  }

  predicate Distinct(s: seq<string>) {
    forall i, j :: 0 <= i < j < |s| ==> s[i] != s[j]
  }

  /** Every accepted nonce differs from the 32 accepted before it. */
  predicate Apart(a: seq<string>) {
    forall i, j :: 0 <= i < j < |a| && j - i <= WINDOW ==> a[i] != a[j]
  }

  /**
   * The deque is always the last 32 accepted nonces, none of them twice, and each accepted message
   * posts exactly one command.
   */
  lemma {:induction false} WindowIsLast32(trace: seq<Delivery>)
    ensures WindowAfter(trace) == LastOf(AcceptedNonces(trace), WINDOW)
    ensures Apart(AcceptedNonces(trace)) && Distinct(WindowAfter(trace))
    ensures |AllPosted(trace)| == |AcceptedNonces(trace)|
  {
    if trace != [] {
      var n := |trace| - 1;
      WindowIsLast32(trace[..n]);
      var a, seen := AcceptedNonces(trace[..n]), WindowAfter(trace[..n]);
      if Accepts(seen, trace[n].env, trace[n].message) {
        AcceptOne(a, trace[n].message.fields.value.nonce);
      }
    }
  }

  lemma AcceptOne(a: seq<string>, nonce: string)
    requires Apart(a) && nonce !in LastOf(a, WINDOW)
    ensures Remember(LastOf(a, WINDOW), nonce) == LastOf(a + [nonce], WINDOW)
    ensures Apart(a + [nonce]) && Distinct(LastOf(a + [nonce], WINDOW))
  {
  }

  /**
   * Between two acceptances of one nonce lie at least 32 acceptances, and the last 32 before the
   * second are of pairwise distinct other nonces.
   */
  lemma ReplayDistance(trace: seq<Delivery>, i: nat, j: nat)
    requires i < j < |AcceptedNonces(trace)| && AcceptedNonces(trace)[i] == AcceptedNonces(trace)[j]
    ensures j - i > WINDOW
    ensures var between := AcceptedNonces(trace)[j - WINDOW..j];
            Distinct(between) && AcceptedNonces(trace)[j] !in between
  {
    WindowIsLast32(trace);
    var a := AcceptedNonces(trace);
    var between := a[j - WINDOW..j];
    assert forall k :: 0 <= k < WINDOW ==> between[k] == a[j - WINDOW + k];
  }

  // ---- What is accepted, and what it asks for ----

  /**
   * A message is acted on exactly when the node is enrolled and has a key, the topic is one of the
   * two, the fields are there with the MAC of that action under that key, the timestamp is within
   * five minutes wherever there is a wall clock, and the nonce is not in the window.
   */
  lemma ActedOnIff(seen: seq<string>, e: Env, m: Message)
    ensures Posted(seen, e, m) != [] <==>
              && e.enrolled && e.key != [] && (m.topic == UnlockTopic || m.topic == LockTopic) && m.fields.Some?
              && var f := m.fields.value;
                 && f.mac == e.macOf(f, m.topic == UnlockTopic, e.key)
                 && (e.now <= 1_000_000_000 || e.now - 300 <= f.ts <= e.now + 300)
                 && f.nonce !in seen
  {
  }

  /** The command a topic stands for, as the lock manager is to receive it. */
  predicate Commands(topic: Topic, event: Event) {
    && event.TargetChanged? && event.lock.source == MQTT && event.lock.currentState == UNKNOWN
    && (topic == UnlockTopic ==> event.lock.targetState == UNLOCKED)
    && (topic == LockTopic ==> event.lock.targetState == LOCKED)
    && topic != OtherTopic
  }

  /** An accepted message posts the one command of its topic; any other posts nothing and is not remembered. */
  lemma OneCommand(seen: seq<string>, e: Env, m: Message)
    ensures if Accepts(seen, e, m) then |Posted(seen, e, m)| == 1 && Commands(m.topic, Posted(seen, e, m)[0])
            else Posted(seen, e, m) == [] && After(seen, e, m) == seen
  {
  }

  /** The accepted messages of a trace, in order. */
  function AcceptedMessages(trace: seq<Delivery>): seq<Message> {
    if trace == [] then []
    else
      var n := |trace| - 1;
      AcceptedMessages(trace[..n])
      + if Accepts(WindowAfter(trace[..n]), trace[n].env, trace[n].message) then [trace[n].message] else []
  }

  /** Over a trace, the k-th command posted is that of the k-th message accepted. */
  lemma {:induction false} CommandsInOrder(trace: seq<Delivery>)
    ensures |AllPosted(trace)| == |AcceptedMessages(trace)| == |AcceptedNonces(trace)|
    ensures forall k :: 0 <= k < |AllPosted(trace)| ==> Commands(AcceptedMessages(trace)[k].topic, AllPosted(trace)[k])
    ensures forall k :: 0 <= k < |AllPosted(trace)| ==>
              AcceptedMessages(trace)[k].fields.Some? && AcceptedMessages(trace)[k].fields.value.nonce == AcceptedNonces(trace)[k]
  {
    if trace != [] {
      var n := |trace| - 1;
      CommandsInOrder(trace[..n]);
      OneCommand(WindowAfter(trace[..n]), trace[n].env, trace[n].message);
    }
  }
}
