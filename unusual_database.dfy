/**
 * The "unusual database" server (problem4): a key-value store spoken to over
 * UDP. A datagram holding `=` is an insert, `key=value`; any other datagram
 * asks for the value of the key it holds. The key `version` always answers
 * with the server's version string.
 */
module UnusualDatabase {
  import opened Wrappers
  import opened Octets

  /** The size of the receive buffer; longer datagrams are cut to it. */
  const PacketLen: nat := 1000

  const EqualsSign: Byte := 0x3d  // '='

  type Bytes = seq<Byte>

  datatype Request =
    | Insert(key: Option<Bytes>, value: Bytes)
    | Get(lookup: Bytes)

  /** The position of the first `b` in `buf`, as `iter().enumerate().find`. */
  function FindFirst(buf: Bytes, b: Byte): (r: Option<nat>)
    ensures r.None? <==> b !in buf
    ensures r.Some? ==> r.value < |buf| && buf[r.value] == b && b !in buf[..r.value]
    decreases |buf|
  {
    if buf == [] then None
    else if buf[0] == b then Some(0)
    else
      match FindFirst(buf[1..], b)
      case None => None
      case Some(i) =>
        assert buf[..i + 1] == [buf[0]] + buf[1..][..i];
        Some(i + 1)
  }

  /** `Request::from_buf`: split at the first `=`; an empty key is kept as
    * `None`, and a datagram without `=` is a lookup of all of it. */
  function FromBuf(buf: Bytes): (r: Request)
    ensures r.Get? <==> EqualsSign !in buf
    ensures r.Get? ==> r.lookup == buf
  {
    match FindFirst(buf, EqualsSign)
    case Some(0) => Insert(None, buf[1..])
    case Some(len) => Insert(Some(buf[..len]), buf[len + 1..])
    case None => Get(buf)
  }

  /** The datagram a client sends for a request. */
  function ToBuf(req: Request): Bytes {
    match req
    case Insert(None, value) => [EqualsSign] + value
    case Insert(Some(key), value) => key + [EqualsSign] + value
    case Get(key) => key
  }

  /** The requests a datagram can mean: keys never hold `=`, and an insert
    * with a key has a non-empty one. */
  predicate WellFormed(req: Request) {
    match req
    case Insert(None, _) => true
    case Insert(Some(key), _) => key != [] && EqualsSign !in key
    case Get(key) => EqualsSign !in key
  }

  /** Every well-formed request survives sending and parsing: in particular a
    * value may itself contain `=`. */
  lemma {:induction false} ParseRoundTrip(req: Request)
    requires WellFormed(req)
    ensures FromBuf(ToBuf(req)) == req
  {
    var buf := ToBuf(req);
    match req
    case Insert(None, value) =>
      assert FindFirst(buf, EqualsSign) == Some(0);
      assert buf[1..] == value;
    case Insert(Some(key), value) =>
      assert buf[|key|] == EqualsSign && buf[..|key|] == key;
      assert buf[|key| + 1..] == value;
    case Get(key) =>
  }

  /** Every datagram parses to a well-formed request that prints back to it. */
  lemma {:induction false} PrintRoundTrip(buf: Bytes)
    ensures WellFormed(FromBuf(buf))
    ensures ToBuf(FromBuf(buf)) == buf
  {
    match FindFirst(buf, EqualsSign)
    case Some(0) =>
      assert buf == [buf[0]] + buf[1..];
    case Some(len) =>
      assert buf == buf[..len] + [buf[len]] + buf[len + 1..];
    case None =>
  }

  /** The five cases pinned down by the repository's own test. */
  lemma {:induction false} FromBufExamples()
    ensures FromBuf([0x3d, 0x41, 0x42]) == Insert(None, [0x41, 0x42])
    ensures FromBuf([0x43, 0x3d, 0x41, 0x42]) == Insert(Some([0x43]), [0x41, 0x42])
    ensures FromBuf([0x43, 0x3d, 0x3d, 0x41, 0x42]) == Insert(Some([0x43]), [0x3d, 0x41, 0x42])
    ensures FromBuf([0x43, 0x3d]) == Insert(Some([0x43]), [])
    ensures FromBuf([0x43, 0x41, 0x42]) == Get([0x43, 0x41, 0x42])
  {
    var bufs: seq<Bytes> := [[0x3d, 0x41, 0x42], [0x43, 0x3d, 0x41, 0x42], [0x43, 0x3d, 0x3d, 0x41, 0x42], [0x43, 0x3d]];
    assert FindFirst(bufs[0], EqualsSign) == Some(0);
    assert FindFirst(bufs[1], EqualsSign) == Some(1);
    assert bufs[1][..1] == [0x43] && bufs[1][2..] == [0x41, 0x42];
    assert FindFirst(bufs[2], EqualsSign) == Some(1);
    assert bufs[2][..1] == [0x43] && bufs[2][2..] == [0x3d, 0x41, 0x42];
    assert FindFirst(bufs[3], EqualsSign) == Some(1);
    assert bufs[3][..1] == [0x43] && bufs[3][2..] == [];
    assert FindFirst([0x43, 0x41, 0x42], EqualsSign) == None;
  }

  // ---------------------------------------------------------------------------
  // The store

  type Store = map<Bytes, Bytes>

  const VersionKey: Bytes := FromAscii("version")
  const Version: Bytes := FromAscii("version=bleh's Key-Value Store 2.0")

  /** The store after a request. */
  function Apply(store: Store, req: Request): Store {
    match req
    case Insert(None, _) => store
    case Insert(Some(key), value) => store[key := value]
    case Get(_) => store
  }

  /** The reply to a request, if any: `key=value` for a lookup, with an empty
    * value for a missing key, except that `version` names the server. */
  function Reply(store: Store, req: Request): Option<Bytes> {
    match req
    case Insert(_, _) => None
    case Get(key) =>
      if key == VersionKey then Some(Version)
      else Some(key + [EqualsSign] + if key in store then store[key] else [])
  }

  datatype Datagram = Datagram(peer: nat, payload: Bytes)

  /** What `recv_from` leaves in the 1000-byte buffer. */
  function Received(payload: Bytes): (packet: Bytes)
    ensures |packet| <= PacketLen && |packet| <= |payload|
    ensures packet == payload[..|packet|]
    ensures |payload| <= PacketLen ==> packet == payload
  {
    if |payload| <= PacketLen then payload else payload[..PacketLen]
  }

  datatype Outcome = Outcome(store: Store, sent: seq<Datagram>)

  /** The server's loop over the datagrams it receives, each answered, if at
    * all, to the peer that sent it. */
  function Served(store: Store, incoming: seq<Datagram>): Outcome
    decreases |incoming|
  {
    if incoming == [] then Outcome(store, [])
    else
      var d := incoming[0];
      var req := FromBuf(Received(d.payload));
      var rest := Served(Apply(store, req), incoming[1..]);
      match Reply(store, req)
      case None => rest
      case Some(answer) => rest.(sent := [Datagram(d.peer, answer)] + rest.sent)
  }

  /** The datagrams a reply, if any, becomes: one, to the peer that asked. */
  function Answered(peer: nat, reply: Option<Bytes>): seq<Datagram> {
    match reply
    case None => []
    case Some(answer) => [Datagram(peer, answer)]
  }

  /** Serving one more datagram extends the outcome of the ones before it. */
  lemma {:induction false} ServedSnoc(store: Store, incoming: seq<Datagram>, d: Datagram)
    ensures var o := Served(store, incoming);
            var req := FromBuf(Received(d.payload));
            Served(store, incoming + [d]) ==
              Outcome(Apply(o.store, req), o.sent + Answered(d.peer, Reply(o.store, req)))
    decreases |incoming|
  {
    if incoming != [] {
      assert (incoming + [d])[0] == incoming[0] && (incoming + [d])[1..] == incoming[1..] + [d];
      ServedSnoc(Apply(store, FromBuf(Received(incoming[0].payload))), incoming[1..], d);
    } else {
      assert [d][1..] == [];
    }
  }

  /** The loop's step: the outcome of the first `i + 1` datagrams. */
  lemma {:induction false} ServedStep(store: Store, incoming: seq<Datagram>, i: nat)
    requires i < |incoming|
    ensures var o := Served(store, incoming[..i]);
            var req := FromBuf(Received(incoming[i].payload));
            Served(store, incoming[..i + 1]) ==
              Outcome(Apply(o.store, req), o.sent + Answered(incoming[i].peer, Reply(o.store, req)))
  {
    var prefix, d := incoming[..i], incoming[i];
    assert incoming[..i + 1] == prefix + [d];
    ServedSnoc(store, prefix, d);
  }

  /** Whatever was inserted before, `version` answers with the version string. */
  lemma {:induction false} VersionIsFixed(store: Store, incoming: seq<Datagram>, peer: nat)
    ensures var sent := Served(store, incoming + [Datagram(peer, VersionKey)]).sent;
            sent != [] && sent[|sent| - 1] == Datagram(peer, Version)
  {
    ServedSnoc(store, incoming, Datagram(peer, VersionKey));
    VersionKeyParses();
  }

  /** The datagram `version` arrives whole and is a lookup of `version`. */
  lemma {:induction false} VersionKeyParses()
    ensures FromBuf(Received(VersionKey)) == Get(VersionKey)
  {
    assert |VersionKey| == 7;
    assert forall i :: 0 <= i < 7 ==> VersionKey[i] != EqualsSign;
  }

  /** A client that stores `key=value` reads back exactly `key=value`, and a
    * store is changed only by inserts. */
  lemma {:induction false} InsertThenGet(store: Store, key: Bytes, value: Bytes, peer: nat, peer': nat)
    requires key != [] && EqualsSign !in key && key != VersionKey
    requires |key| + 1 + |value| <= PacketLen
    ensures Served(store, [Datagram(peer, ToBuf(Insert(Some(key), value))), Datagram(peer', key)]) ==
      Outcome(store[key := value], [Datagram(peer', key + [EqualsSign] + value)])
  {
    var incoming := [Datagram(peer, ToBuf(Insert(Some(key), value))), Datagram(peer', key)];
    ParseRoundTrip(Insert(Some(key), value));
    ParseRoundTrip(Get(key));
    assert Received(incoming[0].payload) == ToBuf(Insert(Some(key), value));
    assert Received(key) == key;
    assert incoming[1..] == [Datagram(peer', key)];
    assert incoming[1..][1..] == [];
    var stored := store[key := value];
    assert Served(stored, [Datagram(peer', key)]) == Outcome(stored, [Datagram(peer', key + [EqualsSign] + value)]);
  }

  /** Lookups never change the store, and inserts are never answered. */
  lemma {:induction false} LookupsOnlyAnswer(store: Store, req: Request)
    ensures req.Get? ==> Apply(store, req) == store && Reply(store, req).Some?
    ensures req.Insert? ==> Reply(store, req) == None
    ensures req.Insert? && req.key.Some? ==>
      Apply(store, req).Keys == store.Keys + {req.key.value} && Apply(store, req)[req.key.value] == req.value &&
      forall k :: k in store && k != req.key.value ==> Apply(store, req)[k] == store[k]
  {
  }

  class Server {
    var store: Store

    constructor ()
      ensures store == map[]
    {
      store := map[];
    }

    /** One arm of the `match` in the receive loop. */
    method Dispatch(req: Request) returns (reply: Option<Bytes>)
      modifies this
      ensures store == Apply(old(store), req)
      ensures reply == Reply(old(store), req)
    {
      match req {
        case Insert(None, _) =>
          reply := None;
        case Insert(Some(key), value) =>
          store := store[key := value];
          reply := None;
        case Get(key) =>
          if key == VersionKey {
            reply := Some(Version);
          } else {
            var value := if key in store then store[key] else [];
            reply := Some(key + [EqualsSign] + value);
          }
      }
    }

    /** The receive loop of `main`. */
    method Serve(incoming: seq<Datagram>) returns (sent: seq<Datagram>)
      modifies this
      ensures Outcome(store, sent) == Served(old(store), incoming)
    {
      sent := [];
      var i := 0;
      while i < |incoming|
        invariant i <= |incoming|
        invariant Outcome(store, sent) == Served(old(store), incoming[..i])
      {
        var d := incoming[i];
        var packet := Received(d.payload);
        var req := FromBuf(packet);
        ServedStep(old(store), incoming, i);
        var reply := Dispatch(req);
        ghost var before := sent;
        if reply.Some? {
          sent := sent + [Datagram(d.peer, reply.value)];
        }
        assert sent == before + Answered(d.peer, reply);
        i := i + 1;
      }
      assert incoming[..i] == incoming;
    }
  }
}
