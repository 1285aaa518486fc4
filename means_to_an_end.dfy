/**
 * The per-connection logic of the price-history server (problem2): a client
 * sends fixed 9-byte records, either inserting a timestamped price or asking
 * for the mean price over an inclusive time window; each session keeps its
 * own timestamp-to-price map.
 */
module MeansToAnEnd {
  import opened Wrappers
  import opened Octets

  /** Rust's `i32`. */
  type Int32 = x: int | -0x8000_0000 <= x < 0x8000_0000

  /** Rust's `i64`, the type the mean is summed in. */
  type Int64 = x: int | -0x8000_0000_0000_0000 <= x < 0x8000_0000_0000_0000

  const MessageLen: nat := 9
  const TagInsert: Byte := 0x49  // 'I'
  const TagQuery: Byte := 0x51  // 'Q'

  datatype Error = UndefinedBehavior

  datatype Message =
    | Insert(timestamp: Int32, price: Int32)
    | Query(mintime: Int32, maxtime: Int32)

  // ---------------------------------------------------------------------------
  // Big-endian two's-complement 32-bit integers

  /** `i32::from_be_bytes`. */
  function FromBeBytes(b: seq<Byte>): Int32
    requires |b| == 4
  {
    var u := (b[0] as int) * 0x100_0000 + (b[1] as int) * 0x1_0000 + (b[2] as int) * 0x100 + b[3] as int;
    if u < 0x8000_0000 then u else u - 0x1_0000_0000
  }

  /** `i32::to_be_bytes`, the encoding `write_i32` puts on the wire. */
  function ToBeBytes(x: Int32): (b: seq<Byte>)
    ensures |b| == 4
  {
    var u := if x < 0 then x + 0x1_0000_0000 else x;
    [u / 0x100_0000, u / 0x1_0000 % 0x100, u / 0x100 % 0x100, u % 0x100]
  }

  lemma {:induction false} BeBytesRoundTrip(x: Int32)
    ensures FromBeBytes(ToBeBytes(x)) == x
  {
    var u := if x < 0 then x + 0x1_0000_0000 else x;
    var b := ToBeBytes(x);
    assert u == (u / 0x100) * 0x100 + u % 0x100;
    assert u / 0x100 == (u / 0x1_0000) * 0x100 + u / 0x100 % 0x100;
    assert u / 0x1_0000 == (u / 0x100_0000) * 0x100 + u / 0x1_0000 % 0x100;
    assert (b[0] as int) * 0x100_0000 + (b[1] as int) * 0x1_0000 + (b[2] as int) * 0x100 + b[3] as int == u;
  }

  /** Division by a power of two splits a number at that digit. */
  lemma {:induction false} SplitAt(hi: int, lo: int, base: int)
    requires base > 0 && 0 <= lo < base
    ensures (hi * base + lo) / base == hi && (hi * base + lo) % base == lo
  {
    var n := hi * base + lo;
    var q := n / base;
    assert n == base * q + n % base;
    assert base * (hi + 1) == base * hi + base;
    assert base * (hi - 1) == base * hi - base;
    CancelLt(base, q, hi + 1);
    CancelLt(base, hi - 1, q);
  }

  lemma {:induction false} BeBytesDecodeEncode(b: seq<Byte>)
    requires |b| == 4
    ensures ToBeBytes(FromBeBytes(b)) == b
  {
    var b0, b1, b2, b3 := b[0] as int, b[1] as int, b[2] as int, b[3] as int;
    var u := b0 * 0x100_0000 + b1 * 0x1_0000 + b2 * 0x100 + b3;
    var a := b0 * 0x1_0000 + b1 * 0x100 + b2;
    var c := b0 * 0x100 + b1;
    SplitAt(a, b3, 0x100);
    assert u == a * 0x100 + b3;
    SplitAt(c, b2 * 0x100 + b3, 0x1_0000);
    assert u == c * 0x1_0000 + (b2 * 0x100 + b3);
    SplitAt(b0, b1 * 0x1_0000 + b2 * 0x100 + b3, 0x100_0000);
    SplitAt(c, b2, 0x100);
    SplitAt(b0, b1, 0x100);
  }

  // ---------------------------------------------------------------------------
  // Records

  /** `Message::from_bytes`: the tag byte, then two big-endian `i32` fields. */
  function FromBytes(bytes: seq<Byte>): Result<Message, Error>
    requires |bytes| == MessageLen
  {
    var lhs := FromBeBytes(bytes[1..5]);
    var rhs := FromBeBytes(bytes[5..9]);
    if bytes[0] == TagInsert then Ok(Insert(lhs, rhs))
    else if bytes[0] == TagQuery then Ok(Query(lhs, rhs))
    else Err(UndefinedBehavior)
  }

  /** The record a client sends for a message. */
  function ToBytes(m: Message): (bytes: seq<Byte>)
    ensures |bytes| == MessageLen
  {
    match m
    case Insert(timestamp, price) => [TagInsert] + ToBeBytes(timestamp) + ToBeBytes(price)
    case Query(mintime, maxtime) => [TagQuery] + ToBeBytes(mintime) + ToBeBytes(maxtime)
  }

  lemma {:induction false} RecordRoundTrip(m: Message)
    ensures FromBytes(ToBytes(m)) == Ok(m)
  {
    var bytes := ToBytes(m);
    match m
    case Insert(timestamp, price) =>
      assert bytes[1..5] == ToBeBytes(timestamp) && bytes[5..9] == ToBeBytes(price);
      BeBytesRoundTrip(timestamp);
      BeBytesRoundTrip(price);
    case Query(mintime, maxtime) =>
      assert bytes[1..5] == ToBeBytes(mintime) && bytes[5..9] == ToBeBytes(maxtime);
      BeBytesRoundTrip(mintime);
      BeBytesRoundTrip(maxtime);
  }

  /** Every record is either rejected for its tag or re-encodes to itself. */
  lemma {:induction false} RecordDecodeEncode(bytes: seq<Byte>)
    requires |bytes| == MessageLen
    ensures FromBytes(bytes).Err? <==> bytes[0] != TagInsert && bytes[0] != TagQuery
    ensures FromBytes(bytes).Ok? ==> ToBytes(FromBytes(bytes).value) == bytes
  {
    BeBytesDecodeEncode(bytes[1..5]);
    BeBytesDecodeEncode(bytes[5..9]);
    assert bytes == [bytes[0]] + bytes[1..5] + bytes[5..9];
  }

  lemma {:induction false} ManualRecord()
    ensures FromBytes([0x49, 0, 0, 0, 0xff, 0, 0, 0x10, 0x00]) == Ok(Insert(255, 4096))
  {
    var bytes: seq<Byte> := [0x49, 0, 0, 0, 0xff, 0, 0, 0x10, 0x00];
    assert bytes[1..5] == [0, 0, 0, 0xff] && bytes[5..9] == [0, 0, 0x10, 0];
  }

  // ---------------------------------------------------------------------------
  // The mean over a time window

  /** Rust's `/` on integers: the quotient truncated toward zero, so `q * b`
    * is the multiple of `b` nearest `a` on the side of zero. */
  function TruncDiv(a: int, b: int): (q: int)
    requires b > 0
    ensures a >= 0 ==> 0 <= q * b <= a < q * b + b
    ensures a < 0 ==> q * b - b < a <= q * b <= 0
  {
    if a >= 0 then
      DivBounds(a, b);
      a / b
    else
      DivBounds(-a, b);
      var p := (-a) / b;
      assert (-p) * b == -(p * b);
      -p
  }

  /** For a non-negative `a`, `a / b` rounds down to a multiple of `b`. */
  lemma {:induction false} DivBounds(a: int, b: int)
    requires a >= 0 && b > 0
    ensures 0 <= (a / b) * b <= a < (a / b) * b + b
  {
    var q, r := a / b, a % b;
    assert a == b * q + r && 0 <= r < b;
    assert b * (-1) < b * q;
    CancelLt(b, -1, q);
    MulNonneg(q, b);
    assert q * b == b * q;
  }

  lemma {:induction false} MulNonneg(x: int, y: int)
    requires x >= 0 && y >= 0
    ensures x * y >= 0
  {
  }

  lemma {:induction false} CancelLe(n: int, a: int, b: int)
    requires n > 0 && n * a <= n * b
    ensures a <= b
  {
    assert n * (b - a) == n * b - n * a;
  }

  lemma {:induction false} CancelLt(n: int, a: int, b: int)
    requires n > 0 && n * a < n * b
    ensures a < b
  {
    assert n * (b - a) == n * b - n * a;
  }

  /** If every one of `n` summands lies in [lo, hi], so does their truncated mean. */
  lemma {:induction false} TruncDivBetween(sum: int, n: int, lo: int, hi: int)
    requires n > 0 && n * lo <= sum <= n * hi
    ensures lo <= TruncDiv(sum, n) <= hi
  {
    if sum >= 0 {
      var q, r := sum / n, sum % n;
      assert sum == n * q + r && 0 <= r < n;
      assert n * (q + 1) == n * q + n;
      CancelLe(n, q, hi);
      CancelLt(n, lo, q + 1);
    } else {
      var p, r := (-sum) / n, (-sum) % n;
      assert -sum == n * p + r && 0 <= r < n;
      assert n * (-p - 1) == -(n * p) - n && n * (-p) == -(n * p);
      CancelLt(n, -p - 1, hi);
      CancelLe(n, lo, -p);
    }
  }

  /** The stored timestamps that lie in the inclusive window. */
  ghost function Window(entries: map<Int32, Int32>, mintime: Int32, maxtime: Int32): set<Int32> {
    set t | t in entries && mintime <= t <= maxtime
  }

  /** The sum of the prices stored at the timestamps `ts`. */
  ghost function SumOf(entries: map<Int32, Int32>, ts: set<Int32>): int
    requires ts <= entries.Keys
    decreases ts
  {
    if ts == {} then 0 else var t :| t in ts; entries[t] + SumOf(entries, ts - {t})
  }

  /** The sum does not depend on which timestamp is taken out first. */
  lemma {:induction false} SumOfRemove(entries: map<Int32, Int32>, ts: set<Int32>, t: Int32)
    requires ts <= entries.Keys && t in ts
    ensures SumOf(entries, ts) == entries[t] + SumOf(entries, ts - {t})
    decreases ts
  {
    var t' :| t' in ts && SumOf(entries, ts) == entries[t'] + SumOf(entries, ts - {t'});
    if t' != t {
      SumOfRemove(entries, ts - {t'}, t);
      SumOfRemove(entries, ts - {t}, t');
      assert ts - {t'} - {t} == ts - {t} - {t'};
    }
  }

  lemma {:induction false} MulSucc(k: int, x: int)
    ensures (k + 1) * x == k * x + x
  {
  }

  lemma {:induction false} SumOfBetween(entries: map<Int32, Int32>, ts: set<Int32>, lo: int, hi: int)
    requires ts <= entries.Keys
    requires forall t :: t in ts ==> lo <= entries[t] <= hi
    ensures |ts| * lo <= SumOf(entries, ts) <= |ts| * hi
    decreases ts
  {
    if ts != {} {
      var t :| t in ts;
      var rest := ts - {t};
      SumOfRemove(entries, ts, t);
      SumOfBetween(entries, rest, lo, hi);
      var k := |rest|;
      assert |ts| == k + 1;
      assert lo <= entries[t] <= hi;
      MulSucc(k, lo);
      MulSucc(k, hi);
    }
  }

  /** A set of integers drawn from [lo, hi) has at most hi - lo members. */
  lemma {:induction false} CardWithin(s: set<int>, lo: int, hi: int)
    requires forall x :: x in s ==> lo <= x < hi
    ensures |s| <= if hi <= lo then 0 else hi - lo
    decreases hi - lo
  {
    if hi <= lo {
      assert s == {};
    } else {
      CardWithin(s - {hi - 1}, lo, hi - 1);
    }
  }

  /** `Session::calculate_avg`, as a value: 0 for an empty window, otherwise
    * the sum of the in-window prices divided by their count, truncated. */
  ghost function Mean(entries: map<Int32, Int32>, mintime: Int32, maxtime: Int32): int {
    var w := Window(entries, mintime, maxtime);
    if w == {} then 0 else TruncDiv(SumOf(entries, w), |w|)
  }

  /** The mean lies between any lower and upper bound of the in-window prices. */
  lemma {:induction false} MeanBetween(entries: map<Int32, Int32>, mintime: Int32, maxtime: Int32, lo: int, hi: int)
    requires Window(entries, mintime, maxtime) != {}
    requires forall t :: t in Window(entries, mintime, maxtime) ==> lo <= entries[t] <= hi
    ensures lo <= Mean(entries, mintime, maxtime) <= hi
  {
    var w := Window(entries, mintime, maxtime);
    SumOfBetween(entries, w, lo, hi);
    TruncDivBetween(SumOf(entries, w), |w|, lo, hi);
  }

  /** Hence the `as i32` cast of the mean never loses anything. */
  lemma {:induction false} MeanFitsInt32(entries: map<Int32, Int32>, mintime: Int32, maxtime: Int32)
    ensures -0x8000_0000 <= Mean(entries, mintime, maxtime) < 0x8000_0000
  {
    if Window(entries, mintime, maxtime) != {} {
      MeanBetween(entries, mintime, maxtime, -0x8000_0000, 0x7fff_ffff);
    }
  }

  lemma {:induction false} EmptyWindowMeansZero(entries: map<Int32, Int32>, mintime: Int32, maxtime: Int32)
    requires mintime > maxtime || forall t :: t in entries ==> t < mintime || maxtime < t
    ensures Mean(entries, mintime, maxtime) == 0
  {
    assert Window(entries, mintime, maxtime) == {};
  }

  /** Every partial sum of in-window prices fits the `i64` accumulator. */
  lemma {:induction false} PartialSumFitsInt64(entries: map<Int32, Int32>, ts: set<Int32>)
    requires ts <= entries.Keys
    ensures -0x8000_0000_0000_0000 <= SumOf(entries, ts) < 0x8000_0000_0000_0000
  {
    CardWithin(ts, -0x8000_0000, 0x8000_0000);
    SumOfBetween(entries, ts, -0x8000_0000, 0x7fff_ffff);
  }

  // ---------------------------------------------------------------------------
  // A session

  /** What `handle_client` leaves behind: the map, the bytes written back
    * and the session's result. */
  datatype Served = Served(entries: map<Int32, Int32>, written: seq<Byte>, result: Result<(), Error>)

  /** `handle_client` over the bytes a client sends: record after record
    * until fewer than 9 bytes are left, a bad tag, or a duplicate insert. */
  ghost function Serve(entries: map<Int32, Int32>, input: seq<Byte>): Served
    decreases |input|
  {
    if |input| < MessageLen then
      Served(entries, [], Ok(()))
    else
      match FromBytes(input[..MessageLen])
      case Err(e) => Served(entries, [], Err(e))
      case Ok(Insert(timestamp, price)) =>
        if timestamp in entries then Served(entries[timestamp := price], [], Err(UndefinedBehavior))
        else Serve(entries[timestamp := price], input[MessageLen..])
      case Ok(Query(mintime, maxtime)) =>
        MeanFitsInt32(entries, mintime, maxtime);
        var rest := Serve(entries, input[MessageLen..]);
        rest.(written := ToBeBytes(Mean(entries, mintime, maxtime)) + rest.written)
  }

  /** The records a session reads: one per 9 bytes, a shorter tail ignored. */
  function Records(input: seq<Byte>): (rs: seq<seq<Byte>>)
    ensures |rs| == |input| / MessageLen
    ensures forall r :: r in rs ==> |r| == MessageLen
    ensures forall k :: 0 <= k < |rs| ==> rs[k] == input[k * MessageLen..(k + 1) * MessageLen]
    decreases |input|
  {
    if |input| < MessageLen then []
    else
      var rest := Records(input[MessageLen..]);
      assert forall k :: 0 <= k < |rest| ==>
        rest[k] == input[(k + 1) * MessageLen..(k + 2) * MessageLen];
      [input[..MessageLen]] + rest
  }

  /** The answers to query records against a fixed map: for each record, the
    * mean over the window its two fields name, as four big-endian bytes. */
  ghost function Answers(entries: map<Int32, Int32>, rs: seq<seq<Byte>>): seq<Byte>
    requires forall r :: r in rs ==> |r| == MessageLen
    decreases |rs|
  {
    if rs == [] then []
    else
      var mintime, maxtime := FromBeBytes(rs[0][1..5]), FromBeBytes(rs[0][5..9]);
      MeanFitsInt32(entries, mintime, maxtime);
      ToBeBytes(Mean(entries, mintime, maxtime)) + Answers(entries, rs[1..])
  }

  /** A client that only queries gets exactly one 4-byte answer per record:
    * the mean over that record's window. */
  lemma {:induction false} QueriesOnlyAnswerEach(entries: map<Int32, Int32>, input: seq<Byte>)
    requires forall r :: r in Records(input) ==> r[0] == TagQuery
    ensures Serve(entries, input).entries == entries
    ensures Serve(entries, input).result == Ok(())
    ensures Serve(entries, input).written == Answers(entries, Records(input))
    ensures |Serve(entries, input).written| == 4 * |Records(input)|
    decreases |input|
  {
    if |input| >= MessageLen {
      var rs := Records(input);
      assert rs[0] == input[..MessageLen];
      assert Records(input[MessageLen..]) == rs[1..];
      QueriesOnlyAnswerEach(entries, input[MessageLen..]);
    }
  }

  /** What one record does to the map: `None` when it ends the session (an
    * unknown tag or a timestamp already stored), otherwise the map after it. */
  function Step(entries: map<Int32, Int32>, r: seq<Byte>): Option<map<Int32, Int32>>
    requires |r| == MessageLen
  {
    match FromBytes(r)
    case Err(_) => None
    case Ok(Insert(timestamp, price)) =>
      if timestamp in entries then None else Some(entries[timestamp := price])
    case Ok(Query(_, _)) => Some(entries)
  }

  /** How many records, from the first, the session handles without ending. */
  function Handled(entries: map<Int32, Int32>, rs: seq<seq<Byte>>): (n: nat)
    requires forall r :: r in rs ==> |r| == MessageLen
    ensures n <= |rs|
    decreases |rs|
  {
    if rs == [] then 0
    else match Step(entries, rs[0])
      case None => 0
      case Some(next) => 1 + Handled(next, rs[1..])
  }

  /** How many of the records are queries. */
  function QueryCount(rs: seq<seq<Byte>>): nat
    requires forall r :: r in rs ==> |r| == MessageLen
    decreases |rs|
  {
    if rs == [] then 0
    else (if rs[0][0] == TagQuery then 1 else 0) + QueryCount(rs[1..])
  }

  /** One record of a session, in terms of `Step`. */
  lemma {:induction false} ServeStep(entries: map<Int32, Int32>, input: seq<Byte>)
    requires |input| >= MessageLen
    ensures Step(entries, input[..MessageLen]).None? ==>
      Serve(entries, input).written == [] && Serve(entries, input).result.Err?
    ensures Step(entries, input[..MessageLen]).Some? ==>
      var rest := Serve(Step(entries, input[..MessageLen]).value, input[MessageLen..]);
      && Serve(entries, input).result == rest.result
      && |Serve(entries, input).written|
        == (if input[0] == TagQuery then 4 else 0) + |rest.written|
  {
    assert input[..MessageLen][0] == input[0];
  }

  /** The first record of a handled run, and the handled records after it. */
  lemma {:induction false} HandledCons(entries: map<Int32, Int32>, rs: seq<seq<Byte>>)
    requires rs != [] && forall r :: r in rs ==> |r| == MessageLen
    requires Step(entries, rs[0]).Some?
    ensures var next := Step(entries, rs[0]).value;
      && Handled(entries, rs) == 1 + Handled(next, rs[1..])
      && QueryCount(rs[..Handled(entries, rs)])
        == (if rs[0][0] == TagQuery then 1 else 0) + QueryCount(rs[1..][..Handled(next, rs[1..])])
  {
    var handled := rs[..Handled(entries, rs)];
    assert handled[0] == rs[0] && handled[1..] == rs[1..][..Handled(entries, rs) - 1];
  }

  /** The first record of a session, and the records after it. */
  lemma {:induction false} RecordsCons(input: seq<Byte>)
    requires |input| >= MessageLen
    ensures Records(input) != [] && Records(input)[0] == input[..MessageLen]
    ensures Records(input[MessageLen..]) == Records(input)[1..]
  {
  }

  /** Whatever a client sends, only queries are answered: the session writes
    * four bytes per query among the records it handles. */
  lemma {:induction false} EachQueryAnswered(entries: map<Int32, Int32>, input: seq<Byte>)
    ensures var rs := Records(input);
      |Serve(entries, input).written| == 4 * QueryCount(rs[..Handled(entries, rs)])
    decreases |input|
  {
    if |input| >= MessageLen {
      RecordsCons(input);
      ServeStep(entries, input);
      var rs := Records(input);
      if Step(entries, rs[0]).None? {
        assert rs[..Handled(entries, rs)] == [];
      } else {
        HandledCons(entries, rs);
        EachQueryAnswered(Step(entries, rs[0]).value, input[MessageLen..]);
        assert input[0] == rs[0][0];
      }
    }
  }

  /** The session ends with `Ok` exactly when it handles every record. */
  lemma {:induction false} OkWhenAllHandled(entries: map<Int32, Int32>, input: seq<Byte>)
    ensures Serve(entries, input).result == Ok(()) <==> Handled(entries, Records(input)) == |Records(input)|
    decreases |input|
  {
    if |input| >= MessageLen {
      RecordsCons(input);
      ServeStep(entries, input);
      var rs := Records(input);
      if Step(entries, rs[0]).Some? {
        HandledCons(entries, rs);
        OkWhenAllHandled(Step(entries, rs[0]).value, input[MessageLen..]);
      }
    }
  }

  /** Inserting a timestamp not yet stored writes nothing and goes on with the
    * price stored. */
  lemma {:induction false} FreshInsertWritesNothing(entries: map<Int32, Int32>, timestamp: Int32, price: Int32, rest: seq<Byte>)
    requires timestamp !in entries
    ensures Serve(entries, ToBytes(Insert(timestamp, price)) + rest)
      == Serve(entries[timestamp := price], rest)
  {
    var input := ToBytes(Insert(timestamp, price)) + rest;
    assert input[..MessageLen] == ToBytes(Insert(timestamp, price));
    assert input[MessageLen..] == rest;
    RecordRoundTrip(Insert(timestamp, price));
  }

  /** A record with an unknown tag ends the session with an error, and so does
    * inserting a timestamp twice. */
  lemma {:induction false} BadTagEndsSession(entries: map<Int32, Int32>, input: seq<Byte>, k: nat)
    requires k < |Records(input)|
    requires Records(input)[k][0] != TagInsert && Records(input)[k][0] != TagQuery
    ensures Serve(entries, input).result.Err?
    decreases k
  {
    var rs := Records(input);
    assert rs[0] == input[..MessageLen];
    if k > 0 {
      assert Records(input[MessageLen..]) == rs[1..];
      match FromBytes(input[..MessageLen])
      case Err(_) =>
      case Ok(Insert(timestamp, price)) =>
        if timestamp !in entries {
          BadTagEndsSession(entries[timestamp := price], input[MessageLen..], k - 1);
        }
      case Ok(Query(_, _)) =>
        BadTagEndsSession(entries, input[MessageLen..], k - 1);
    }
  }

  lemma {:induction false} DuplicateInsertEndsSession(entries: map<Int32, Int32>, timestamp: Int32, price: Int32, rest: seq<Byte>)
    requires timestamp in entries
    ensures Serve(entries, ToBytes(Insert(timestamp, price)) + rest)
      == Served(entries[timestamp := price], [], Err(UndefinedBehavior))
  {
    var input := ToBytes(Insert(timestamp, price)) + rest;
    assert input[..MessageLen] == ToBytes(Insert(timestamp, price));
    RecordRoundTrip(Insert(timestamp, price));
  }

  class Session {
    var entries: map<Int32, Int32>

    constructor ()
      ensures entries == map[]
    {
      entries := map[];
    }

    /** `Session::insert`: the new price is stored even when the timestamp
      * was already present, and the duplicate is then reported. */
    method Insert(timestamp: Int32, price: Int32) returns (r: Result<(), Error>)
      modifies this
      ensures entries == old(entries)[timestamp := price]
      ensures r == if timestamp in old(entries) then Err(UndefinedBehavior) else Ok(())
    {
      var previous := timestamp in entries;
      entries := entries[timestamp := price];
      if previous {
        r := Err(UndefinedBehavior);
      } else {
        r := Ok(());
      }
    }

    /** `Session::calculate_avg`: collect the in-window prices, sum them as
      * `i64`, divide by their count. */
    method CalculateAvg(mintime: Int32, maxtime: Int32) returns (avg: Int32)
      ensures avg == Mean(entries, mintime, maxtime)
    {
      var pending := entries.Keys;
      var sum: Int64 := 0;
      var count := 0;
      ghost var range: set<Int32> := {};
      while pending != {}
        invariant pending <= entries.Keys
        invariant forall t :: t in range <==> t in entries && t !in pending && mintime <= t <= maxtime
        invariant sum == SumOf(entries, range) && count == |range|
        decreases pending
      {
        var t :| t in pending;
        if mintime <= t <= maxtime {
          SumOfRemove(entries, range + {t}, t);
          assert range + {t} - {t} == range;
          PartialSumFitsInt64(entries, range + {t});
          sum := sum + entries[t];
          count := count + 1;
          range := range + {t};
        }
        pending := pending - {t};
      }
      assert range == Window(entries, mintime, maxtime);
      if count == 0 {
        return 0;
      }
      MeanFitsInt32(entries, mintime, maxtime);
      avg := TruncDiv(sum, count);
    }

    /** `Session::handle_client`: read 9-byte records until the stream ends,
      * answering each query with its mean as four big-endian bytes. */
    method HandleClient(input: seq<Byte>) returns (written: seq<Byte>, r: Result<(), Error>)
      modifies this
      ensures Served(entries, written, r) == Serve(old(entries), input)
    {
      written := [];
      var i := 0;
      while i + MessageLen <= |input|
        invariant i <= |input|
        invariant Serve(old(entries), input) == var s := Serve(entries, input[i..]); s.(written := written + s.written)
        decreases |input| - i
      {
        ghost var before := entries;
        var record := input[i..i + MessageLen];
        assert record == input[i..][..MessageLen] && input[i..][MessageLen..] == input[i + MessageLen..];
        match FromBytes(record) {
          case Err(e) =>
            return written, Err(e);
          case Ok(Insert(timestamp, price)) =>
            r := this.Insert(timestamp, price);
            if r.Err? {
              assert FromBytes(input[i..][..MessageLen]) == Ok(Message.Insert(timestamp, price));
              assert Serve(before, input[i..]) == Served(before[timestamp := price], [], Err(UndefinedBehavior));
              return;
            }
          case Ok(Query(mintime, maxtime)) =>
            var avg := CalculateAvg(mintime, maxtime);
            written := written + ToBeBytes(avg);
        }
        i := i + MessageLen;
      }
      r := Ok(());
    }
  }

  /** The prices of the worked example, at timestamps 1 to 6. */
  const Example: map<Int32, Int32> := map[1 := 10, 2 := 123, 3 := 4, 4 := 3455, 5 := 3, 6 := -9]

  lemma {:induction false} ExampleSum()
    ensures SumOf(Example, {1, 2, 3, 4, 5, 6}) == 3586
  {
    SumOfRemove(Example, {1, 2, 3, 4, 5, 6}, 1);
    assert {1, 2, 3, 4, 5, 6} - {1} == {2, 3, 4, 5, 6};
    SumOfRemove(Example, {2, 3, 4, 5, 6}, 2);
    assert {2, 3, 4, 5, 6} - {2} == {3, 4, 5, 6};
    SumOfRemove(Example, {3, 4, 5, 6}, 3);
    assert {3, 4, 5, 6} - {3} == {4, 5, 6};
    SumOfRemove(Example, {4, 5, 6}, 4);
    assert {4, 5, 6} - {4} == {5, 6};
    SumOfRemove(Example, {5, 6}, 5);
    assert {5, 6} - {5} == {6};
    SumOfRemove(Example, {6}, 6);
    assert {6} - {6} == {};
  }

  /** The worked example: prices 10, 123, 4, 3455, 3 and -9 at timestamps 1 to
    * 6 average to 597 over [1, 6]. */
  lemma {:induction false} AverageExample()
    ensures Mean(Example, 1, 6) == 597
  {
    assert Window(Example, 1, 6) == {1, 2, 3, 4, 5, 6};
    ExampleSum();
  }
}
