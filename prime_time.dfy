/**
 * The request logic of the "prime time" server (problem1): a client sends
 * one JSON request per line, `{"method":"isPrime","number":N}`, and gets one
 * JSON response per line. Parsing and printing JSON belong to serde and are
 * not modelled: a request arrives here as the result of parsing one line.
 */
module PrimeTime {
  import opened Wrappers

  /** Rust's `isize` on a 64-bit target. */
  type Isize = x: int | -0x8000_0000_0000_0000 <= x < 0x8000_0000_0000_0000

  /** Why a line did not parse, as the session classifies serde's error. */
  datatype Error = FloatingPoint | InvalidJson(message: string)

  datatype Request = Request(methodName: string, number: Isize)

  datatype Response = Response(methodName: string, prime: bool)
  {
    /** `Response::ok`: a well-formed answer. */
    static function Ok(prime: bool): Response {
      Response("isPrime", prime)
    }

    /** `Response::malformed`: the answer that also ends the session. */
    static function Malformed(): Response {
      Response("malformed", false)
    }

    predicate IsMalformed() {
      methodName == "malformed"
    }
  }

  lemma {:induction false} MalformedIsRecognised(prime: bool)
    ensures Response.Malformed().IsMalformed()
    ensures !Response.Ok(prime).IsMalformed()
  {
    assert Response.Ok(prime).methodName[0] != "malformed"[0];
  }

  // ---------------------------------------------------------------------------
  // Classifying serde's error message

  /** The phrase serde uses when a number field holds a float. */
  const FloatMarker: string := "invalid type: floating point "

  predicate OccursAt(s: string, pattern: string, i: nat) {
    i + |pattern| <= |s| && s[i..i + |pattern|] == pattern
  }

  ghost predicate Contains(s: string, pattern: string) {
    exists i: nat :: OccursAt(s, pattern, i)
  }

  /** Shifting the string by one character shifts every occurrence by one. */
  lemma {:induction false} OccursShifted(s: string, pattern: string, j: nat)
    requires s != []
    ensures OccursAt(s, pattern, j + 1) <==> OccursAt(s[1..], pattern, j)
  {
    if j + 1 + |pattern| <= |s| {
      assert s[j + 1..j + 1 + |pattern|] == s[1..][j..j + |pattern|];
    }
  }

  /** `str::find`: the first character position at which `pattern` occurs in
    * `s` (Rust counts bytes; only whether there is one matters here). */
  function Find(s: string, pattern: string): (r: Option<nat>)
    ensures r.Some? ==> OccursAt(s, pattern, r.value)
    ensures r.Some? ==> forall j: nat :: j < r.value ==> !OccursAt(s, pattern, j)
    ensures r.None? ==> !Contains(s, pattern)
    decreases |s|
  {
    if |s| < |pattern| then
      assert forall j: nat :: !OccursAt(s, pattern, j);
      None
    else if s[..|pattern|] == pattern then
      Some(0)
    else
      match Find(s[1..], pattern)
      case None =>
        assert forall j: nat :: j > 0 ==> !OccursAt(s, pattern, j) by {
          forall j: nat | j > 0 ensures !OccursAt(s, pattern, j) {
            OccursShifted(s, pattern, j - 1);
          }
        }
        assert !OccursAt(s, pattern, 0);
        None
      case Some(i) =>
        assert OccursAt(s, pattern, i + 1) by {
          OccursShifted(s, pattern, i);
        }
        assert forall j: nat :: 0 < j < i + 1 ==> !OccursAt(s, pattern, j) by {
          forall j: nat | 0 < j < i + 1 ensures !OccursAt(s, pattern, j) {
            OccursShifted(s, pattern, j - 1);
          }
        }
        Some(i + 1)
  }

  /** `From<serde_json::Error>`: a message that mentions a floating-point
    * value is `FloatingPoint`; every other message is kept as `InvalidJson`. */
  function FromSerdeError(message: string): (e: Error)
    ensures e == FloatingPoint <==> Contains(message, FloatMarker)
    ensures e.InvalidJson? ==> e.message == message
  {
    match Find(message, FloatMarker)
    case Some(_) => FloatingPoint
    case None => InvalidJson(message)
  }

  lemma {:induction false} FloatingPointMessageClassified(prefix: string, suffix: string)
    ensures FromSerdeError(prefix + FloatMarker + suffix) == FloatingPoint
  {
    var s := prefix + FloatMarker + suffix;
    assert OccursAt(s, FloatMarker, |prefix|) by {
      assert s[|prefix|..|prefix| + |FloatMarker|] == FloatMarker;
    }
  }

  // ---------------------------------------------------------------------------
  // Primality

  /** The specification: `n` has no divisor strictly between 1 and itself. */
  ghost predicate IsPrimeNumber(n: int) {
    n >= 2 && forall d :: 2 <= d < n ==> n % d != 0
  }

  /** Euclidean division has one remainder: the one Dafny's `%` gives. */
  lemma {:induction false} RemainderUnique(n: int, q: int, k: int, r: int)
    requires q > 0 && n == q * k + r && 0 <= r < q
    ensures n % q == r
  {
    var t := k - n / q;
    assert n == q * (n / q) + n % q;
    assert q * t == q * k - q * (n / q);
    assert q * t == n % q - r;
  }

  /** `n / d` is the divisor that pairs with `d`. */
  lemma {:induction false} CoDivisor(n: int, d: int)
    requires 2 <= d < n && n % d == 0
    ensures 2 <= n / d && n % (n / d) == 0
  {
    var q := n / d;
    assert n == d * q;
    RemainderUnique(n, q, d, 0);
  }

  lemma {:induction false} ProductAtLeast(a: int, b: int, c: int)
    requires 0 <= c <= a && 0 <= c <= b
    ensures c * c <= a * b
  {
    assert c * c <= a * c;
    assert a * c <= a * b;
  }

  /** A divisor above the square root pairs with one below it. */
  lemma {:induction false} NoSmallDivisorMeansPrime(n: int, i: int)
    requires n >= 2 && i >= 2 && i * i > n
    requires forall d :: 2 <= d < i ==> n % d != 0
    ensures IsPrimeNumber(n)
  {
    forall d | 2 <= d < n ensures n % d != 0 {
      if n % d == 0 {
        CoDivisor(n, d);
        var q := n / d;
        if d >= i && q >= i {
          ProductAtLeast(q, d, i);
        }
        assert false;
      }
    }
  }

  /** `Session::is_prime`: trial division by 2, 3, ... up to the square root
    * of `number`, stopping at the first divisor. */
  method IsPrime(number: Isize) returns (prime: bool)
    ensures prime <==> IsPrimeNumber(number)
  {
    if number <= 1 {
      return false;
    }
    var i := 2;
    while i * i <= number
      invariant 2 <= i <= number
      invariant forall d :: 2 <= d < i ==> number % d != 0
      decreases number - i
    {
      if number % i == 0 {
        assert i < number by {
          assert i * 2 <= i * i;
        }
        return false;
      }
      assert i + 1 <= number by {
        assert i * 2 <= i * i;
      }
      i := i + 1;
    }
    NoSmallDivisorMeansPrime(number, i);
    return true;
  }

  /** A number below 25 with no divisor among 2, 3 and 4 is prime. */
  lemma {:induction false} PrimeBelow25(n: int)
    requires 5 <= n < 25 && n % 2 != 0 && n % 3 != 0 && n % 4 != 0
    ensures IsPrimeNumber(n)
  {
    forall d | 2 <= d < 5 ensures n % d != 0 {
      if d == 2 {} else if d == 3 {} else { assert d == 4; }
    }
    NoSmallDivisorMeansPrime(n, 5);
  }

  /** Scanning 0, 1, 2, ... finds 2, 3, 5, 7, 11, 13, 17, 19 and 23 first. */
  lemma {:induction false} FirstNinePrimes()
    ensures forall n | 0 <= n < 24 :: IsPrimeNumber(n) <==> n in {2, 3, 5, 7, 11, 13, 17, 19, 23}
  {
    NoSmallDivisorMeansPrime(2, 2);
    NoSmallDivisorMeansPrime(3, 2);
    PrimeBelow25(5);
    PrimeBelow25(7);
    PrimeBelow25(11);
    PrimeBelow25(13);
    PrimeBelow25(17);
    PrimeBelow25(19);
    PrimeBelow25(23);
    forall n | 0 <= n < 24 && n !in {2, 3, 5, 7, 11, 13, 17, 19, 23}
      ensures !IsPrimeNumber(n)
    {
      if n in {4, 6, 8, 10, 12, 14, 16, 18, 20, 22} {
        assert n % 2 == 0;
      } else if n in {9, 15, 21} {
        assert n % 3 == 0;
      }
    }
  }

  // ---------------------------------------------------------------------------
  // Answering requests

  /** What `handle_request` answers to one parse result. */
  ghost function Answer(parsed: Result<Request, Error>): Response {
    match parsed
    case Ok(Request(name, number)) =>
      if name == "isPrime" then Response.Ok(IsPrimeNumber(number)) else Response.Malformed()
    case Err(FloatingPoint) => Response.Ok(false)
    case Err(InvalidJson(_)) => Response.Malformed()
  }

  lemma {:induction false} AnswerMalformedExactly(parsed: Result<Request, Error>)
    ensures Answer(parsed).IsMalformed() <==>
      (parsed.Ok? && parsed.value.methodName != "isPrime") || (parsed.Err? && parsed.error.InvalidJson?)
    ensures parsed == Err(FloatingPoint) ==> Answer(parsed) == Response.Ok(false)
    ensures parsed.Ok? && parsed.value.methodName == "isPrime" ==>
      Answer(parsed) == Response.Ok(IsPrimeNumber(parsed.value.number))
  {
    match parsed
    case Ok(Request(name, number)) =>
      if name == "isPrime" {
        MalformedIsRecognised(IsPrimeNumber(number));
      }
    case Err(FloatingPoint) =>
      MalformedIsRecognised(false);
    case Err(InvalidJson(_)) =>
  }

  /** `Session::handle_request`, given the parse result of the line. */
  method HandleRequest(parsed: Result<Request, Error>) returns (resp: Response)
    ensures resp == Answer(parsed)
  {
    match parsed {
      case Ok(Request(name, number)) =>
        if name == "isPrime" {
          var prime := IsPrime(number);
          resp := Response.Ok(prime);
        } else {
          resp := Response.Malformed();
        }
      case Err(FloatingPoint) =>
        resp := Response.Ok(false);
      case Err(InvalidJson(_)) =>
        resp := Response.Malformed();
    }
  }

  /** The responses a session writes: one per line, up to and including the
    * first malformed one. When the client has sent all its lines, the next
    * read yields an empty line, which does not parse as JSON, so a session
    * that never went wrong ends with one malformed response. */
  ghost function Replies(parsed: seq<Result<Request, Error>>): seq<Response>
    decreases |parsed|
  {
    if parsed == [] then
      [Response.Malformed()]
    else if Answer(parsed[0]).IsMalformed() then
      [Answer(parsed[0])]
    else
      [Answer(parsed[0])] + Replies(parsed[1..])
  }

  /** A session answers each line in turn and ends with its only malformed
    * response. */
  lemma {:induction false} RepliesShape(parsed: seq<Result<Request, Error>>)
    ensures var rs := Replies(parsed);
      && 1 <= |rs| <= |parsed| + 1
      && rs[|rs| - 1].IsMalformed()
      && forall k :: 0 <= k < |rs| - 1 ==> !rs[k].IsMalformed() && rs[k] == Answer(parsed[k])
    decreases |parsed|
  {
    if parsed != [] && !Answer(parsed[0]).IsMalformed() {
      RepliesShape(parsed[1..]);
    }
  }

  /** One more line: its answer, then the rest only if it was well formed. */
  lemma {:induction false} RepliesFrom(parsed: seq<Result<Request, Error>>, i: nat)
    requires i < |parsed|
    ensures Replies(parsed[i..]) ==
      [Answer(parsed[i])] + if Answer(parsed[i]).IsMalformed() then [] else Replies(parsed[i + 1..])
  {
    assert parsed[i..][0] == parsed[i] && parsed[i..][1..] == parsed[i + 1..];
  }

  /** `Session::start`: answer line after line, stopping right after the
    * first malformed response. */
  method Start(parsed: seq<Result<Request, Error>>) returns (written: seq<Response>)
    ensures written == Replies(parsed)
  {
    written := [];
    var i := 0;
    while true
      invariant 0 <= i <= |parsed|
      invariant written + Replies(parsed[i..]) == Replies(parsed)
      decreases |parsed| - i
    {
      if i == |parsed| {
        assert parsed[i..] == [];
        written := written + [Response.Malformed()];
        return;
      }
      var resp := HandleRequest(parsed[i]);
      RepliesFrom(parsed, i);
      if resp.IsMalformed() {
        assert Replies(parsed[i..]) == [resp];
        written := written + [resp];
        return;
      }
      assert written + Replies(parsed[i..]) == (written + [resp]) + Replies(parsed[i + 1..]);
      written := written + [resp];
      i := i + 1;
    }
  }
}
