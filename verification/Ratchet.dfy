/**
 * Ratchet sessions (mobile/src/crypto/sessionManager.ts) over symbolic keys: hashing is an injective
 * constructor, the two halves of a hash are unrelated constructors, Diffie-Hellman is commutative, and
 * a sealed box opens exactly under its own key and nonce. Nothing is claimed about secrecy.
 */
module Ratchet {
  import opened Base

  datatype Key =
    | Secret(id: nat)
    | MessageOf(chain: Key)               // hash(chain || 0x01)
    | NextOf(chain: Key)                  // hash(chain || 0x02)
    | RootOf(root: Key, dh: Key)          // first half of hash(root || dh)
    | ChainOf(root: Key, dh: Key)         // second half
    | Shared(low: nat, high: nat)         // Diffie-Hellman of two key pairs

  /** A key pair is a number; its public half is what headers carry. */
  datatype Public = Public(pair: nat)

  datatype Box = Box(text: string, key: Key, nonce: nat)

  datatype Header = Header(ratchetKey: Public, messageNumber: nat, previousCount: nat)

  datatype Packet = Packet(box: Box, header: Header)

  datatype State = State(
    rootKey: Key,
    sendChainKey: Key,
    receiveChainKey: Key,
    sendRatchetKey: Public,
    sendRatchetPrivate: nat,
    receiveRatchetKey: Public,
    sendMessageNumber: nat,
    receiveMessageNumber: nat,
    previousSendCount: nat
  )

  function DeriveSharedSecret(private: nat, public: Public): Key {
    if private <= public.pair then Shared(private, public.pair) else Shared(public.pair, private)
  }

  lemma DhCommutes(a: nat, b: nat)
    ensures DeriveSharedSecret(a, Public(b)) == DeriveSharedSecret(b, Public(a))
  {
  }

  function Open(box: Box, nonce: nat, key: Key): Option<string> {
    if box.key == key && box.nonce == nonce then Some(box.text) else None
  }

  // ---------------------------------------------------------------- operations

  /** The chain key after `n` derivations. */
  function Advance(chain: Key, n: nat): Key {
    if n == 0 then chain else NextOf(Advance(chain, n - 1))
  }

  function EncryptStep(s: State, text: string, nonce: nat): (State, Packet) {
    (s.(sendChainKey := NextOf(s.sendChainKey), sendMessageNumber := s.sendMessageNumber + 1),
     Packet(Box(text, MessageOf(s.sendChainKey), nonce),
            Header(s.sendRatchetKey, s.sendMessageNumber, s.previousSendCount)))
  }

  /** A header with a new ratchet key: one DH step to receive, a new key pair, one DH step to send. */
  function TurnStep(s: State, peer: Public, newPair: nat): State {
    var dh1 := DeriveSharedSecret(s.sendRatchetPrivate, peer);
    var root1 := RootOf(s.rootKey, dh1);
    var dh2 := DeriveSharedSecret(newPair, peer);
    s.(previousSendCount := s.sendMessageNumber,
       sendMessageNumber := 0,
       receiveRatchetKey := peer,
       receiveChainKey := ChainOf(s.rootKey, dh1),
       sendRatchetKey := Public(newPair),
       sendRatchetPrivate := newPair,
       rootKey := RootOf(root1, dh2),
       sendChainKey := ChainOf(root1, dh2))
  }

  /** The catch-up loop: derive once for every number up to the one in the header. */
  function CatchUpStep(s: State, number: nat): (State, Option<Key>) {
    if s.receiveMessageNumber <= number then
      var skip := number - s.receiveMessageNumber;
      (s.(receiveChainKey := Advance(s.receiveChainKey, skip + 1), receiveMessageNumber := number + 1),
       Some(MessageOf(Advance(s.receiveChainKey, skip))))
    else
      (s.(receiveMessageNumber := number + 1), None)
  }

  function MaybeTurn(s: State, peer: Public, newPair: nat): State {
    if peer != s.receiveRatchetKey then TurnStep(s, peer, newPair) else s
  }

  /** No message key (the empty string in the source) opens nothing. */
  function DecryptStep(s: State, p: Packet, newPair: nat): (State, Option<string>) {
    var (s', key) := CatchUpStep(MaybeTurn(s, p.header.ratchetKey, newPair), p.header.messageNumber);
    (s', if key.Some? then Open(p.box, p.box.nonce, key.value) else None)
  }

  // ---------------------------------------------------------------- the service

  datatype Result<T> = Ok(value: T) | NoSession | CannotOpen

  class SessionManager {
    var sessions: map<(nat, nat), State>

    constructor ()
      ensures sessions == map[]
    {
      sessions := map[];
    }

    method RatchetEncrypt(peer: (nat, nat), text: string, nonce: nat) returns (r: Result<Packet>)
      modifies this
      ensures peer !in old(sessions) ==> r == NoSession && sessions == old(sessions)
      ensures peer in old(sessions) ==>
                && sessions == old(sessions)[peer := EncryptStep(old(sessions)[peer], text, nonce).0]
                && r == Ok(EncryptStep(old(sessions)[peer], text, nonce).1)
    {
      if peer !in sessions { return NoSession; }
      var state := sessions[peer];
      var messageKey, nextChainKey := MessageOf(state.sendChainKey), NextOf(state.sendChainKey);
      var box := Box(text, messageKey, nonce);
      var header := Header(state.sendRatchetKey, state.sendMessageNumber, state.previousSendCount);
      state := state.(sendChainKey := nextChainKey);
      state := state.(sendMessageNumber := state.sendMessageNumber + 1);
      sessions := sessions[peer := state];
      r := Ok(Packet(box, header));
    }

    /** The session is saved before the box is opened: a packet that cannot be opened still moves it. */
    method RatchetDecrypt(peer: (nat, nat), p: Packet, newPair: nat) returns (r: Result<string>)
      modifies this
      ensures peer !in old(sessions) ==> r == NoSession && sessions == old(sessions)
      ensures peer in old(sessions) ==>
                && sessions == old(sessions)[peer := DecryptStep(old(sessions)[peer], p, newPair).0]
                && r == match DecryptStep(old(sessions)[peer], p, newPair).1
                        case Some(text) => Ok(text)
                        case None => CannotOpen
    {
      if peer !in sessions { return NoSession; }
      var state := sessions[peer];
      var header := p.header;
      if header.ratchetKey != state.receiveRatchetKey {
        state := state.(previousSendCount := state.sendMessageNumber, sendMessageNumber := 0);
        state := state.(receiveRatchetKey := header.ratchetKey);
        var dhOutput := DeriveSharedSecret(state.sendRatchetPrivate, header.ratchetKey);
        state := state.(receiveChainKey := ChainOf(state.rootKey, dhOutput),
                        rootKey := RootOf(state.rootKey, dhOutput));
        state := state.(sendRatchetKey := Public(newPair), sendRatchetPrivate := newPair);
        var dhOutput2 := DeriveSharedSecret(newPair, header.ratchetKey);
        state := state.(sendChainKey := ChainOf(state.rootKey, dhOutput2), rootKey := RootOf(state.rootKey, dhOutput2));
      }
      ghost var turned := state;
      assert turned == MaybeTurn(old(sessions)[peer], header.ratchetKey, newPair);
      var receiveChainKey := state.receiveChainKey;
      var messageKey: Option<Key> := None;
      var i := state.receiveMessageNumber;
      while i <= header.messageNumber
        invariant turned.receiveMessageNumber <= i
        invariant i <= header.messageNumber + 1 || i == turned.receiveMessageNumber
        invariant receiveChainKey == Advance(turned.receiveChainKey, i - turned.receiveMessageNumber)
        invariant messageKey ==
                  if i == turned.receiveMessageNumber then None
                  else Some(MessageOf(Advance(turned.receiveChainKey, i - turned.receiveMessageNumber - 1)))
      {
        messageKey := Some(MessageOf(receiveChainKey));
        receiveChainKey := NextOf(receiveChainKey);
        i := i + 1;
      }
      state := state.(receiveChainKey := receiveChainKey, receiveMessageNumber := header.messageNumber + 1);
      sessions := sessions[peer := state];
      if messageKey.None? { return CannotOpen; }
      var plain := Open(p.box, p.box.nonce, messageKey.value);
      r := if plain.Some? then Ok(plain.value) else CannotOpen;
    }
  }

  // ---------------------------------------------------------------- one chain

  function Depth(k: Key): nat {
    match k
    case NextOf(c) => 1 + Depth(c)
    case _ => 0
  }

  lemma {:induction false} AdvanceDepth(chain: Key, n: nat)
    ensures Depth(Advance(chain, n)) == Depth(chain) + n
  {
    if n > 0 { AdvanceDepth(chain, n - 1); }
  }

  lemma AdvanceInjective(chain: Key, m: nat, n: nat)
    ensures Advance(chain, m) == Advance(chain, n) <==> m == n
  {
    AdvanceDepth(chain, m);
    AdvanceDepth(chain, n);
  }

  lemma {:induction false} AdvanceAdd(chain: Key, m: nat, n: nat)
    ensures Advance(Advance(chain, m), n) == Advance(chain, m + n)
  {
    if n > 0 { AdvanceAdd(chain, m, n - 1); }
  }

  /** A sending chain: its key at message number `base`, and the ratchet key in its headers. */
  datatype Chain = Chain(start: Key, base: nat, ratchet: Public)

  ghost predicate OnChain(p: Packet, c: Chain) {
    && p.header.ratchetKey == c.ratchet && p.header.messageNumber >= c.base
    && p.box.key == MessageOf(Advance(c.start, p.header.messageNumber - c.base))
  }

  /** The sender's key and counter belong together on the chain. */
  ghost predicate Leads(s: State, c: Chain) {
    && s.sendRatchetKey == c.ratchet && s.sendMessageNumber >= c.base
    && s.sendChainKey == Advance(c.start, s.sendMessageNumber - c.base)
  }

  /** The receiver's key and counter belong together on the chain. */
  ghost predicate Follows(s: State, c: Chain) {
    && s.receiveRatchetKey == c.ratchet && s.receiveMessageNumber >= c.base
    && s.receiveChainKey == Advance(c.start, s.receiveMessageNumber - c.base)
  }

  /**
   * On a chain the receiver follows, a message opens exactly if its number is not behind the receiver,
   * and the receiver keeps following exactly if the number is at most one behind: an older message sets
   * the counter back while the chain key stays.
   */
  lemma DecryptOnChain(s: State, p: Packet, c: Chain, newPair: nat)
    requires Follows(s, c) && OnChain(p, c)
    ensures var (s', text) := DecryptStep(s, p, newPair);
            var n := p.header.messageNumber;
            && (if n >= s.receiveMessageNumber then text == Some(p.box.text) else text == None)
            && (Follows(s', c) <==> n + 1 >= s.receiveMessageNumber)
            && s'.receiveMessageNumber == n + 1
  {
    var n, r := p.header.messageNumber, s.receiveMessageNumber;
    if n >= r {
      AdvanceAdd(c.start, r - c.base, n - r);
      AdvanceAdd(c.start, r - c.base, n - r + 1);
    } else {
      AdvanceInjective(c.start, r - c.base, n + 1 - c.base);
    }
  }

  /** Encrypting uses the chain's key for the sender's number and moves one step along the chain. */
  lemma EncryptOnChain(s: State, text: string, nonce: nat, c: Chain)
    requires Leads(s, c)
    ensures var (s', p) := EncryptStep(s, text, nonce);
            && OnChain(p, c) && p.header.messageNumber == s.sendMessageNumber && p.box.text == text
            && Leads(s', c) && s'.sendMessageNumber == s.sendMessageNumber + 1
  {
  }

  function SendAll(s: State, texts: seq<string>, nonce: nat): (r: (State, seq<Packet>))
    ensures |r.1| == |texts|
  {
    if texts == [] then (s, [])
    else
      var (s', ps) := SendAll(s, Front(texts), nonce);
      var (s'', p) := EncryptStep(s', Last(texts), nonce + |texts|);
      (s'', ps + [p])
  }

  lemma {:induction false} SentOnChain(s: State, texts: seq<string>, nonce: nat, c: Chain)
    requires Leads(s, c)
    ensures var (s', ps) := SendAll(s, texts, nonce);
            && Leads(s', c) && s'.sendMessageNumber == s.sendMessageNumber + |texts|
            && (forall i :: 0 <= i < |texts| ==>
                  && OnChain(ps[i], c) && ps[i].header.messageNumber == s.sendMessageNumber + i
                  && ps[i].box.text == texts[i])
  {
    if texts != [] {
      SentOnChain(s, Front(texts), nonce, c);
      EncryptOnChain(SendAll(s, Front(texts), nonce).0, Last(texts), nonce + |texts|, c);
    }
  }

  function ReceiveAll(s: State, ps: seq<Packet>, newPair: nat): (r: (State, seq<Option<string>>))
    ensures |r.1| == |ps|
  {
    if ps == [] then (s, [])
    else
      var (s', ts) := ReceiveAll(s, Front(ps), newPair);
      var (s'', t) := DecryptStep(s', Last(ps), newPair);
      (s'', ts + [t])
  }

  lemma {:induction false} ReceivedInOrder(r: State, ps: seq<Packet>, newPair: nat, c: Chain)
    requires Follows(r, c)
    requires forall i :: 0 <= i < |ps| ==> OnChain(ps[i], c) && ps[i].header.messageNumber >= r.receiveMessageNumber
    requires forall i, j :: 0 <= i < j < |ps| ==> ps[i].header.messageNumber < ps[j].header.messageNumber
    ensures var (r', ts) := ReceiveAll(r, ps, newPair);
            && Follows(r', c)
            && r'.receiveMessageNumber ==
               (if ps == [] then r.receiveMessageNumber else Last(ps).header.messageNumber + 1)
            && forall i :: 0 <= i < |ps| ==> ts[i] == Some(ps[i].box.text)
  {
    if ps != [] {
      ReceivedInOrder(r, Front(ps), newPair, c);
      DecryptOnChain(ReceiveAll(r, Front(ps), newPair).0, Last(ps), c, newPair);
    }
  }

  /** The packets that arrive: those at the positions `picks`. */
  function Arrived(ps: seq<Packet>, picks: seq<nat>): (r: seq<Packet>)
    requires forall i :: 0 <= i < |picks| ==> picks[i] < |ps|
    ensures |r| == |picks| && forall i :: 0 <= i < |picks| ==> r[i] == ps[picks[i]]
  {
    seq(|picks|, i requires 0 <= i < |picks| => ps[picks[i]])
  }

  /**
   * Whatever messages get lost: the ones that arrive in sending order open to exactly the texts that
   * were sent, when the receiver starts at the sender's chain key and number.
   */
  lemma LossyChainDelivers(
    sender: State, receiver: State, texts: seq<string>, nonce: nat, newPair: nat, picks: seq<nat>)
    requires receiver.receiveChainKey == sender.sendChainKey
    requires receiver.receiveMessageNumber == sender.sendMessageNumber
    requires receiver.receiveRatchetKey == sender.sendRatchetKey
    requires forall i :: 0 <= i < |picks| ==> picks[i] < |texts|
    requires forall i, j :: 0 <= i < j < |picks| ==> picks[i] < picks[j]
    ensures var texts' := ReceiveAll(receiver, Arrived(SendAll(sender, texts, nonce).1, picks), newPair).1;
            forall i :: 0 <= i < |picks| ==> texts'[i] == Some(texts[picks[i]])
  {
    var c := Chain(sender.sendChainKey, sender.sendMessageNumber, sender.sendRatchetKey);
    SentOnChain(sender, texts, nonce, c);
    ReceivedInOrder(receiver, Arrived(SendAll(sender, texts, nonce).1, picks), newPair, c);
  }

  // ---------------------------------------------------------------- turns

  /**
   * Two parties between turns: `speaker` made the last DH turn, and `listener` has not heard of it yet.
   * `start` is the speaker's sending chain as it was right after that turn.
   */
  datatype Talk = Talk(speaker: State, listener: State, start: Key, nextPair: nat)

  /** The roots are in step: the listener's next receiving half yields the speaker's root and chain. */
  ghost predicate InStep(t: Talk) {
    var dh := DeriveSharedSecret(t.speaker.sendRatchetPrivate, t.listener.sendRatchetKey);
    && t.speaker.rootKey == RootOf(t.listener.rootKey, dh)
    && t.start == ChainOf(t.listener.rootKey, dh)
    && t.speaker.sendRatchetKey == Public(t.speaker.sendRatchetPrivate)
    && t.listener.sendRatchetKey == Public(t.listener.sendRatchetPrivate)
    && t.speaker.receiveRatchetKey == t.listener.sendRatchetKey
    && t.listener.receiveRatchetKey != t.speaker.sendRatchetKey
    && Leads(t.speaker, Chain(t.start, 0, t.speaker.sendRatchetKey))
    && t.speaker.sendRatchetPrivate < t.nextPair && t.listener.sendRatchetPrivate < t.nextPair
  }

  /** The speaker sends, or one of the two hears a packet; any packet at all may arrive. */
  datatype Move = Say(text: string, nonce: nat) | Hear(bySpeaker: bool, packet: Packet)

  /** Who hears a new ratchet key makes a DH turn and is the speaker from then on. */
  function MoveStep(t: Talk, m: Move): Talk {
    match m
    case Say(text, nonce) => t.(speaker := EncryptStep(t.speaker, text, nonce).0)
    case Hear(bySpeaker, p) =>
      var hearer, other := if bySpeaker then t.speaker else t.listener, if bySpeaker then t.listener else t.speaker;
      var s := DecryptStep(hearer, p, t.nextPair).0;
      if p.header.ratchetKey != hearer.receiveRatchetKey then Talk(s, other, s.sendChainKey, t.nextPair + 1)
      else if bySpeaker then t.(speaker := s)
      else t.(listener := s)
  }

  function Moves(t: Talk, ms: seq<Move>): Talk {
    if ms == [] then t else MoveStep(Moves(t, Front(ms)), Last(ms))
  }

  /** A packet of the chain its hearer receives on, or of the chain the peer has just started. */
  predicate Timely(t: Talk, m: Move) {
    match m
    case Say(_, _) => true
    case Hear(true, p) => p.header.ratchetKey == t.speaker.receiveRatchetKey
    case Hear(false, p) =>
      p.header.ratchetKey == t.listener.receiveRatchetKey || p.header.ratchetKey == t.speaker.sendRatchetKey
  }

  /** A packet with the peer's new ratchet key: the listener turns. */
  predicate Turns(t: Talk, p: Packet) {
    p.header.ratchetKey == t.speaker.sendRatchetKey
  }

  /** A turn gives the listener exactly the chain the speaker sends on, and the roots are in step again. */
  lemma TurnAgrees(t: Talk, p: Packet)
    requires InStep(t) && Turns(t, p)
    ensures TurnStep(t.listener, p.header.ratchetKey, t.nextPair).receiveChainKey == t.start
    ensures InStep(MoveStep(t, Hear(false, p)))
  {
    DhCommutes(t.speaker.sendRatchetPrivate, t.listener.sendRatchetPrivate);
    DhCommutes(t.nextPair, t.speaker.sendRatchetPrivate);
  }

  function RootDepth(k: Key): nat {
    match k
    case RootOf(r, _) => 1 + RootDepth(r)
    case _ => 0
  }

  /** A shared secret determines the other party's key. */
  lemma DhInjective(a: nat, b: nat, c: nat)
    ensures DeriveSharedSecret(a, Public(b)) == DeriveSharedSecret(c, Public(a)) <==> b == c
  {
  }

  /** A turn of the speaker puts its root two steps ahead of the listener's next one. */
  lemma SpeakerTurnBreaks(t: Talk, p: Packet)
    requires InStep(t) && p.header.ratchetKey != t.speaker.receiveRatchetKey
    ensures !InStep(MoveStep(t, Hear(true, p)))
  {
    var z := MoveStep(t, Hear(true, p));
    assert RootDepth(t.speaker.rootKey) == 1 + RootDepth(t.listener.rootKey);
    assert RootDepth(z.speaker.rootKey) == 2 + RootDepth(t.speaker.rootKey);
    assert z.listener == t.listener;
  }

  /** A turn of the listener on a key that is not the speaker's gives it a root of its own. */
  lemma ListenerTurnBreaks(t: Talk, p: Packet)
    requires InStep(t) && p.header.ratchetKey != t.listener.receiveRatchetKey && !Turns(t, p)
    ensures !InStep(MoveStep(t, Hear(false, p)))
  {
    var z := MoveStep(t, Hear(false, p));
    var dh := DeriveSharedSecret(t.listener.sendRatchetPrivate, p.header.ratchetKey);
    DhInjective(t.listener.sendRatchetPrivate, p.header.ratchetKey.pair, t.speaker.sendRatchetPrivate);
    assert z.speaker.rootKey.root == RootOf(t.listener.rootKey, dh);
    assert z.listener == t.speaker;
  }

  /**
   * Whatever is said and whatever packet arrives, the roots stay in step exactly if the packet belongs
   * to the chain its hearer receives on or to the peer's newest one. A packet of an older chain, late
   * by two turns, puts them out of step.
   */
  lemma MoveInStepExactly(t: Talk, m: Move)
    requires InStep(t)
    ensures InStep(MoveStep(t, m)) <==> Timely(t, m)
  {
    match m
    case Say(text, nonce) => EncryptOnChain(t.speaker, text, nonce, Chain(t.start, 0, t.speaker.sendRatchetKey));
    case Hear(bySpeaker, p) =>
      if bySpeaker {
        if !Timely(t, m) { SpeakerTurnBreaks(t, p); }
      } else if p.header.ratchetKey != t.listener.receiveRatchetKey {
        if Turns(t, p) { TurnAgrees(t, p); } else { ListenerTurnBreaks(t, p); }
      }
  }

  ghost predicate AllTimely(t: Talk, ms: seq<Move>) {
    ms != [] ==> AllTimely(t, Front(ms)) && Timely(Moves(t, Front(ms)), Last(ms))
  }

  ghost predicate InStepThroughout(t: Talk, ms: seq<Move>) {
    InStep(Moves(t, ms)) && (ms != [] ==> InStepThroughout(t, Front(ms)))
  }

  /** From roots in step, any number of turns and messages keeps them in step exactly if every packet is timely. */
  lemma {:induction false} InStepExactly(t: Talk, ms: seq<Move>)
    requires InStep(t)
    ensures InStepThroughout(t, ms) <==> AllTimely(t, ms)
  {
    if ms != [] {
      InStepExactly(t, Front(ms));
      if InStepThroughout(t, Front(ms)) { MoveInStepExactly(Moves(t, Front(ms)), Last(ms)); }
    }
  }

  /** After any such conversation, the next turn gives the receiver the peer's chain from its start. */
  lemma EveryTurnAgrees(t: Talk, ms: seq<Move>, p: Packet)
    requires InStep(t) && AllTimely(t, ms) && Turns(Moves(t, ms), p)
    ensures var z := Moves(t, ms);
            TurnStep(z.listener, p.header.ratchetKey, z.nextPair).receiveChainKey == z.start
    ensures InStep(MoveStep(Moves(t, ms), Hear(false, p)))
  {
    InStepExactly(t, ms);
    TurnAgrees(Moves(t, ms), p);
  }

  /**
   * The turn does not set the receive counter to zero, so the message that causes a turn opens, and the
   * receiver follows the new chain, exactly if the counter happened to be zero.
   */
  lemma TurnDelivers(t: Talk, p: Packet)
    requires InStep(t) && OnChain(p, Chain(t.start, 0, t.speaker.sendRatchetKey))
    ensures var (s, text) := DecryptStep(t.listener, p, t.nextPair);
            && (text == Some(p.box.text) <==> t.listener.receiveMessageNumber == 0)
            && (Follows(s, Chain(t.start, 0, p.header.ratchetKey)) <==> t.listener.receiveMessageNumber == 0)
  {
    TurnAgrees(t, p);
    var n, r := p.header.messageNumber, t.listener.receiveMessageNumber;
    if r <= n {
      AdvanceInjective(t.start, n, n - r);
      AdvanceInjective(t.start, n + 1, n - r + 1);
    } else {
      AdvanceInjective(t.start, n + 1, 0);
    }
  }

  // ---------------------------------------------------------------- what the missing reset does

  /** The speaker's next packet. */
  function NextPacket(t: Talk): Packet {
    EncryptStep(t.speaker, "hi", 0).1
  }

  /** The speaker says something and the listener hears it at once. */
  function Exchange(t: Talk): Talk {
    MoveStep(MoveStep(t, Say("hi", 0)), Hear(false, NextPacket(t)))
  }

  lemma ExchangeTurns(t: Talk)
    requires InStep(t)
    ensures InStep(Exchange(t)) && Timely(MoveStep(t, Say("hi", 0)), Hear(false, NextPacket(t)))
    ensures Exchange(t).speaker.receiveMessageNumber == t.speaker.sendMessageNumber + 1
    ensures Exchange(t).listener.receiveMessageNumber == t.speaker.receiveMessageNumber
    ensures Exchange(t).speaker.receiveRatchetKey == t.speaker.sendRatchetKey
  {
    MoveInStepExactly(t, Say("hi", 0));
    TurnAgrees(MoveStep(t, Say("hi", 0)), NextPacket(t));
  }

  /**
   * From any talk in step, two messages each of which is heard at once leave the roots in step, and
   * yet the third message, a reply to the second, does not open.
   */
  lemma ThirdMessageFails(t: Talk)
    requires InStep(t)
    ensures var z := Exchange(Exchange(t));
            InStep(z) && DecryptStep(z.listener, NextPacket(z), z.nextPair).1 == None
  {
    ExchangeTurns(t);
    ExchangeTurns(Exchange(t));
    var z := Exchange(Exchange(t));
    EncryptOnChain(z.speaker, "hi", 0, Chain(z.start, 0, z.speaker.sendRatchetKey));
    TurnDelivers(z, NextPacket(z));
  }

  /** A packet of the first chain that arrives only after the next chain of its sender puts the roots out of step. */
  lemma LatePacketBreaks(t: Talk, late: Packet)
    requires InStep(t) && Turns(t, late)
    ensures var z := Exchange(Exchange(Exchange(t)));
            InStep(z) && !InStep(MoveStep(z, Hear(true, late)))
  {
    var a := Exchange(t);
    ExchangeTurns(t);
    ExchangeTurns(a);
    ExchangeTurns(Exchange(a));
    assert Exchange(a).speaker.sendRatchetKey == Public(a.nextPair);
    MoveInStepExactly(Exchange(Exchange(a)), Hear(true, late));
  }

  /** A talk in step to begin with: the speaker knows the listener's key and has made the first turn. */
  function Opening(): Talk {
    var root, dh := Secret(0), DeriveSharedSecret(1, Public(0));
    var chain := ChainOf(root, dh);
    Talk(State(RootOf(root, dh), chain, Secret(1), Public(1), 1, Public(0), 0, 0, 0),
         State(root, Secret(2), Secret(3), Public(0), 0, Public(0), 0, 0, 0), chain, 2)
  }

  lemma OpeningInStep()
    ensures InStep(Opening())
  {
    assert Advance(Opening().start, 0) == Opening().start;
  }

  // ---------------------------------------------------------------- what the headers say

  lemma {:induction false} SentHeaders(s: State, texts: seq<string>, nonce: nat)
    ensures var (z, ps) := SendAll(s, texts, nonce);
            && z.sendMessageNumber == s.sendMessageNumber + |texts| && z.receiveRatchetKey == s.receiveRatchetKey
            && z.previousSendCount == s.previousSendCount && z.sendRatchetKey == s.sendRatchetKey
            && forall i :: 0 <= i < |texts| ==>
                 && ps[i].header == Header(s.sendRatchetKey, s.sendMessageNumber + i, s.previousSendCount)
                 && ps[i].box.nonce == nonce + i + 1
  {
    if texts != [] { SentHeaders(s, Front(texts), nonce); }
  }

  /**
   * A chain is announced completely: after a turn every packet carries the new key, its own number from
   * zero on, and how many messages its sender had sent on the chain before; its box has a nonce of its own.
   */
  lemma HeadersAnnounceChain(s: State, texts: seq<string>, p: Packet, newPair: nat, more: seq<string>, nonce: nat)
    requires s.sendMessageNumber == 0 && p.header.ratchetKey != s.receiveRatchetKey
    ensures var turned := DecryptStep(SendAll(s, texts, nonce).0, p, newPair).0;
            forall i :: 0 <= i < |more| ==>
              var q := SendAll(turned, more, nonce).1[i];
              q.header == Header(Public(newPair), i, |texts|) && q.box.nonce == nonce + i + 1
  {
    SentHeaders(s, texts, nonce);
    SentHeaders(DecryptStep(SendAll(s, texts, nonce).0, p, newPair).0, more, nonce);
  }
}
