/**
 * The budget chat server (problem3). Each connection negotiates a name and
 * then sends the room one event per line it reads; a single room task owns
 * the members and their sockets and handles the events one at a time,
 * writing join, chat and leave lines to every member but the one acting.
 *
 * A socket is modelled by the sequence of lines written to it.
 */
module BudgetChat {
  import opened Wrappers

  /** The per-connection counter value the listener hands out. */
  type Id = nat

  /** A member: its name and everything written to its socket so far. */
  datatype User = User(name: string, socket: seq<string>)

  datatype Event =
    | UserEnter(id: Id, user: User)
    | NewMessage(from: Id, text: string)
    | UserLeave(id: Id)

  // ---------------------------------------------------------------------------
  // The lines of the protocol

  const Welcome: string := "Welcome to budgetchat! What shall I call you?\n"

  function EnteredLine(name: string): string {
    "* " + name + " has entered the room\n"
  }

  function LeftLine(name: string): string {
    "* " + name + " has left the room\n"
  }

  function ChatLine(name: string, text: string): string {
    "[" + name + "] " + text + "\n"
  }

  /** `join`: the names with `sep` between neighbours. */
  function Join(names: seq<string>, sep: string): string
    decreases |names|
  {
    if |names| == 0 then ""
    else if |names| == 1 then names[0]
    else names[0] + sep + Join(names[1..], sep)
  }

  function RoomContainsLine(names: seq<string>): string {
    "* The room contains: " + Join(names, ", ") + "\n"
  }

  // ---------------------------------------------------------------------------
  // Trimming and the name check

  /** Unicode's White_Space property, the set `str::trim` strips. */
  predicate IsWhitespace(c: char) {
    var n := c as int;
    (0x09 <= n <= 0x0d) || n == 0x20 || n == 0x85 || n == 0xa0 || n == 0x1680
    || (0x2000 <= n <= 0x200a) || n == 0x2028 || n == 0x2029 || n == 0x202f
    || n == 0x205f || n == 0x3000
  }

  /** ASCII letters and digits. */
  predicate IsAlphanumeric(c: char) {
    ('0' <= c <= '9') || ('a' <= c <= 'z') || ('A' <= c <= 'Z')
  }

  /** How many whitespace characters `s` starts with. */
  function LeadingWhitespace(s: string): (n: nat)
    ensures n <= |s|
    ensures forall i :: 0 <= i < n ==> IsWhitespace(s[i])
    ensures n == |s| || !IsWhitespace(s[n])
    decreases |s|
  {
    if s != [] && IsWhitespace(s[0]) then 1 + LeadingWhitespace(s[1..]) else 0
  }

  /** Where the whitespace `s` ends with begins. */
  function TrailingWhitespace(s: string): (n: nat)
    ensures n <= |s|
    ensures forall i :: n <= i < |s| ==> IsWhitespace(s[i])
    ensures n == 0 || !IsWhitespace(s[n - 1])
    decreases |s|
  {
    if s != [] && IsWhitespace(s[|s| - 1]) then TrailingWhitespace(s[..|s| - 1]) else |s|
  }

  /** `str::trim`: `s` without its leading and trailing whitespace. */
  function Trim(s: string): string {
    var t := s[LeadingWhitespace(s)..];
    t[..TrailingWhitespace(t)]
  }

  predicate AllWhitespace(s: string) {
    forall i :: 0 <= i < |s| ==> IsWhitespace(s[i])
  }

  /** A string with no whitespace at either end. */
  predicate Trimmed(s: string) {
    s == [] || (!IsWhitespace(s[0]) && !IsWhitespace(s[|s| - 1]))
  }

  /** `Trim` takes off exactly the whitespace padding around a trimmed core. */
  lemma {:induction false} TrimPadded(before: string, core: string, after: string)
    requires AllWhitespace(before) && AllWhitespace(after) && Trimmed(core)
    ensures Trim(before + core + after) == core
  {
    var s := before + core + after;
    var k := LeadingWhitespace(s);
    var t := s[k..];
    if core == [] {
      assert AllWhitespace(s) by {
        forall i | 0 <= i < |s| ensures IsWhitespace(s[i]) {
          if i >= |before| {
            assert s[i] == after[i - |before|];
          }
        }
      }
      assert t == [];
    } else {
      // The first character of `core` stops the scan from the left, and
      // every character before it is padding.
      assert s[|before|] == core[0];
      assert k <= |before|;
      assert k >= |before|;
      assert t == core + after;
      // Symmetrically, the last character of `core` stops the scan from the
      // right.
      var e := TrailingWhitespace(t);
      assert t[|core| - 1] == core[|core| - 1];
      assert e >= |core|;
      assert e <= |core|;
    }
  }

  lemma {:induction false} TrimIdempotent(s: string)
    ensures Trimmed(Trim(s)) && Trim(Trim(s)) == Trim(s)
  {
    var t := Trim(s);
    TrimPadded([], t, []);
    assert [] + t + [] == t;
  }

  datatype Reason = TooShort | Invalid

  /** A refused handshake: why, and what the socket holds when it is dropped. */
  datatype Rejection = Rejection(reason: Reason, socket: seq<string>)

  /** `Server::accept_user`: write the welcome prompt, then accept the
    * trimmed reply as the name if it is non-empty and alphanumeric. */
  function AcceptUser(socket: seq<string>, line: string): (r: Result<User, Rejection>)
    ensures r.Ok? <==> Trim(line) != [] && forall i :: 0 <= i < |Trim(line)| ==> IsAlphanumeric(Trim(line)[i])
    ensures r.Err? && r.error.reason == TooShort <==> Trim(line) == []
    ensures r.Ok? ==> r.value == User(Trim(line), socket + [Welcome])
    ensures r.Err? ==> r.error.socket == socket + [Welcome]
  {
    var name := Trim(line);
    var prompted := socket + [Welcome];
    if |name| < 1 then Err(Rejection(TooShort, prompted))
    else if !(forall i :: 0 <= i < |name| ==> IsAlphanumeric(name[i])) then Err(Rejection(Invalid, prompted))
    else Ok(User(name, prompted))
  }

  /** A non-empty alphanumeric name, padded with any whitespace, is accepted
    * as itself. */
  lemma {:induction false} HandshakeAccepts(socket: seq<string>, before: string, name: string, after: string)
    requires AllWhitespace(before) && AllWhitespace(after)
    requires name != [] && forall i :: 0 <= i < |name| ==> IsAlphanumeric(name[i])
    ensures AcceptUser(socket, before + name + after) == Ok(User(name, socket + [Welcome]))
  {
    assert !IsWhitespace(name[0]) && !IsWhitespace(name[|name| - 1]);
    TrimPadded(before, name, after);
  }

  /** An accepted name is never empty and never holds whitespace. */
  lemma {:induction false} AcceptedNameIsClean(socket: seq<string>, line: string)
    requires AcceptUser(socket, line).Ok?
    ensures var name := AcceptUser(socket, line).value.name;
            name != [] && forall i :: 0 <= i < |name| ==> !IsWhitespace(name[i])
  {
  }

  /** A blank line is refused as too short. */
  lemma {:induction false} BlankNameRejected(socket: seq<string>)
    ensures AcceptUser(socket, "\n") == Err(Rejection(TooShort, socket + [Welcome]))
  {
    TrimPadded([], [], "\n");
    assert [] + [] + "\n" == "\n";
  }

  /** `bob!` is refused for its punctuation. */
  lemma {:induction false} PunctuatedNameRejected(socket: seq<string>)
    ensures AcceptUser(socket, "bob!\n") == Err(Rejection(Invalid, socket + [Welcome]))
  {
    TrimPadded([], "bob!", "\n");
    assert [] + "bob!" + "\n" == "bob!\n";
    assert !IsAlphanumeric("bob!"[3]);
  }

  // ---------------------------------------------------------------------------
  // A connection's events

  /** What the read loop sends for the chunks `read_until` returns: one
    * message per chunk, trimmed, until a read returns nothing. */
  function Messages(id: Id, chunks: seq<string>): (evs: seq<Event>)
    ensures |evs| <= |chunks|
    ensures forall k :: 0 <= k < |evs| ==> evs[k] == NewMessage(id, Trim(chunks[k])) && chunks[k] != []
    ensures |evs| < |chunks| ==> chunks[|evs|] == []
    decreases |chunks|
  {
    if chunks == [] || chunks[0] == [] then []
    else [NewMessage(id, Trim(chunks[0]))] + Messages(id, chunks[1..])
  }

  /** Everything one connection sends the room: nothing if the handshake
    * fails, otherwise its entry, its messages and then its leave. */
  function SessionEvents(id: Id, socket: seq<string>, nameLine: string, chunks: seq<string>): (evs: seq<Event>)
    ensures evs == [] <==> AcceptUser(socket, nameLine).Err?
    ensures evs != [] ==>
      && evs[0] == UserEnter(id, AcceptUser(socket, nameLine).value)
      && evs[|evs| - 1] == UserLeave(id)
      && forall k :: 0 < k < |evs| - 1 ==> evs[k].NewMessage? && evs[k].from == id
  {
    match AcceptUser(socket, nameLine)
    case Err(_) => []
    case Ok(user) => [UserEnter(id, user)] + Messages(id, chunks) + [UserLeave(id)]
  }

  /** The tokio task spawned per connection, after its socket is split. */
  method Session(id: Id, socket: seq<string>, nameLine: string, chunks: seq<string>) returns (sent: seq<Event>)
    ensures sent == SessionEvents(id, socket, nameLine, chunks)
  {
    var accepted := AcceptUser(socket, nameLine);
    if accepted.Err? {
      return [];
    }
    sent := [UserEnter(id, accepted.value)];
    var i := 0;
    while i < |chunks|
      invariant i <= |chunks|
      invariant sent + Messages(id, chunks[i..]) == [UserEnter(id, accepted.value)] + Messages(id, chunks)
      decreases |chunks| - i
    {
      var msg := chunks[i];
      assert chunks[i..][0] == msg && chunks[i..][1..] == chunks[i + 1..];
      if |msg| == 0 {
        break;
      }
      if |msg| != 0 {
        sent := sent + [NewMessage(id, Trim(msg))];
      }
      i := i + 1;
    }
    assert Messages(id, chunks[i..]) == [];
    sent := sent + [UserLeave(id)];
  }

  // ---------------------------------------------------------------------------
  // The room's state after one event

  type Roster = map<Id, string>

  /** Who is in the room, by name. */
  function NamesOf(users: map<Id, User>): (roster: Roster)
    ensures roster.Keys == users.Keys
  {
    map k | k in users :: users[k].name
  }

  function Deliver(user: User, line: string): User {
    user.(socket := user.socket + [line])
  }

  /** `Room::broadcast`: `line` written to every member but `from`. */
  function Broadcasted(users: map<Id, User>, from: Id, line: string): map<Id, User> {
    map k | k in users :: if k == from then users[k] else Deliver(users[k], line)
  }

  /** The members whose socket a step wrote to. */
  function Recipients(before: map<Id, User>, after: map<Id, User>): set<Id> {
    set k | k in before && k in after && after[k].socket != before[k].socket
  }

  /** A broadcast reaches every member except the sender, exactly once, and
    * changes nobody's name and nobody's membership. */
  lemma {:induction false} BroadcastReachesOthers(users: map<Id, User>, from: Id, line: string)
    ensures var after := Broadcasted(users, from, line);
      && NamesOf(after) == NamesOf(users)
      && (from in users ==> after[from] == users[from])
      && (forall k :: k in users && k != from ==> after[k].socket == users[k].socket + [line])
      && Recipients(users, after) == users.Keys - {from}
      && |Recipients(users, after)| == |users| - (if from in users then 1 else 0)
  {
    var after := Broadcasted(users, from, line);
    assert NamesOf(after) == NamesOf(users);
    assert Recipients(users, after) == users.Keys - {from} by {
      forall k | k in users && k != from ensures k in Recipients(users, after) {
        assert |after[k].socket| == |users[k].socket| + 1;
      }
    }
  }

  lemma {:induction false} NamesOfUpdate(users: map<Id, User>, id: Id, user: User)
    ensures NamesOf(users[id := user]) == NamesOf(users)[id := user.name]
  {
    assert NamesOf(users[id := user]).Keys == NamesOf(users).Keys + {id};
  }

  /** A listing order for the members: each id once. */
  predicate IsEnumeration(order: seq<Id>, keys: set<Id>) {
    && (forall i, j :: 0 <= i < j < |order| ==> order[i] != order[j])
    && (forall k :: k in order ==> k in keys)
    && (forall k :: k in keys ==> k in order)
  }

  /** The names `here` collects, in the listing order, leaving out every
    * member called `name`. */
  function OthersNames(roster: Roster, order: seq<Id>, name: string): seq<string>
    requires forall k :: k in order ==> k in roster
    decreases |order|
  {
    if order == [] then []
    else
      var k := order[|order| - 1];
      var earlier := OthersNames(roster, order[..|order| - 1], name);
      if roster[k] != name then earlier + [roster[k]] else earlier
  }

  /** The listed members whose name differs from `name`. */
  function NamedOtherwise(roster: Roster, order: seq<Id>, name: string): set<Id>
    requires forall k :: k in order ==> k in roster
  {
    set k | k in order && roster[k] != name
  }

  /** The "room contains" list holds one entry per member whose name differs
    * from `name`. */
  lemma {:induction false} OthersNamesCount(roster: Roster, order: seq<Id>, name: string)
    requires forall k :: k in order ==> k in roster
    requires forall i, j :: 0 <= i < j < |order| ==> order[i] != order[j]
    ensures |OthersNames(roster, order, name)| == |NamedOtherwise(roster, order, name)|
    decreases |order|
  {
    if order != [] {
      var last := order[|order| - 1];
      var prefix := order[..|order| - 1];
      OthersNamesCount(roster, prefix, name);
      var s := NamedOtherwise(roster, prefix, name);
      assert last !in prefix;
      assert order == prefix + [last];
      if roster[last] != name {
        assert OthersNames(roster, order, name) == OthersNames(roster, prefix, name) + [roster[last]];
        assert NamedOtherwise(roster, order, name) == s + {last} && last !in s;
      } else {
        assert OthersNames(roster, order, name) == OthersNames(roster, prefix, name);
        assert NamedOtherwise(roster, order, name) == s;
      }
    }
  }

  /** The list holds exactly the listed members' names other than `name`. */
  lemma {:induction false} OthersNamesMembers(roster: Roster, order: seq<Id>, name: string)
    requires forall k :: k in order ==> k in roster
    ensures forall x :: x in OthersNames(roster, order, name) <==> x != name && exists k :: k in order && roster[k] == x
    decreases |order|
  {
    if order != [] {
      var last := order[|order| - 1];
      var prefix := order[..|order| - 1];
      OthersNamesMembers(roster, prefix, name);
      assert order == prefix + [last];
      forall x ensures x in OthersNames(roster, order, name) <==> x != name && exists k :: k in order && roster[k] == x {
        if x != name && roster[last] == x {
          assert last in order;
        }
        if x != name && exists k :: k in prefix && roster[k] == x {
          var k :| k in prefix && roster[k] == x;
          assert k in order;
        }
      }
    }
  }

  /** The list sent to a joiner names exactly the members already present
    * under another name: never the joiner's own name, whatever the order. */
  lemma {:induction false} RoomContainsOthers(roster: Roster, order: seq<Id>, name: string)
    requires IsEnumeration(order, roster.Keys)
    ensures name !in OthersNames(roster, order, name)
    ensures forall x :: x in OthersNames(roster, order, name) <==> x != name && x in roster.Values
    ensures |OthersNames(roster, order, name)| == |set k | k in roster && roster[k] != name|
  {
    OthersNamesCount(roster, order, name);
    OthersNamesMembers(roster, order, name);
    assert NamedOtherwise(roster, order, name) == (set k | k in roster && roster[k] != name);
    forall x | x != name && x in roster.Values ensures x in OthersNames(roster, order, name) {
      var k :| k in roster && roster[k] == x;
      assert k in order;
    }
  }

  /** The members after `UserEnter(id, user)`, the pre-existing ones listed in
    * `order` for the "room contains" line. */
  function Entered(users: map<Id, User>, id: Id, user: User, order: seq<Id>): map<Id, User>
    requires IsEnumeration(order, users.Keys)
  {
    var hello := RoomContainsLine(OthersNames(NamesOf(users), order, user.name));
    Broadcasted(users, id, EnteredLine(user.name))[id := Deliver(user, hello)]
  }

  /** Entering tells every other present member the joiner's name and tells
    * the joiner who is there. */
  lemma {:induction false} EnterNotifies(users: map<Id, User>, id: Id, user: User, order: seq<Id>)
    requires IsEnumeration(order, users.Keys)
    ensures var after := Entered(users, id, user, order);
      && after[id].socket == user.socket + [RoomContainsLine(OthersNames(NamesOf(users), order, user.name))]
      && (forall k :: k in users && k != id ==> after[k].socket == users[k].socket + [EnteredLine(user.name)])
  {
    BroadcastReachesOthers(users, id, EnteredLine(user.name));
  }

  /** Entering adds the joiner under its name and renames nobody else. */
  lemma {:induction false} EnterAddsMember(users: map<Id, User>, id: Id, user: User, order: seq<Id>)
    requires IsEnumeration(order, users.Keys)
    ensures NamesOf(Entered(users, id, user, order)) == NamesOf(users)[id := user.name]
  {
    var line := EnteredLine(user.name);
    var hello := RoomContainsLine(OthersNames(NamesOf(users), order, user.name));
    var mid := Broadcasted(users, id, line);
    BroadcastReachesOthers(users, id, line);
    NamesOfUpdate(mid, id, Deliver(user, hello));
  }

  /** The members after `NewMessage(from, text)` with a non-empty text. */
  function Said(users: map<Id, User>, from: Id, text: string): map<Id, User>
    requires from in users
  {
    Broadcasted(users, from, ChatLine(users[from].name, text))
  }

  /** The members after `UserLeave(id)`. */
  function Left(users: map<Id, User>, id: Id): map<Id, User>
    requires id in users
  {
    Broadcasted(users, id, LeftLine(users[id].name)) - {id}
  }

  /** Leaving tells every other member and removes exactly the leaver. */
  lemma {:induction false} LeaveNotifies(users: map<Id, User>, id: Id)
    requires id in users
    ensures var after := Left(users, id);
      && NamesOf(after) == NamesOf(users) - {id}
      && (forall k :: k in after ==> after[k].socket == users[k].socket + [LeftLine(users[id].name)])
      && |after| == |users| - 1
  {
    var mid := Broadcasted(users, id, LeftLine(users[id].name));
    BroadcastReachesOthers(users, id, LeftLine(users[id].name));
    assert NamesOf(mid - {id}) == NamesOf(mid) - {id};
    assert (mid - {id}).Keys == users.Keys - {id};
  }

  // ---------------------------------------------------------------------------
  // Who is in the room after a run of events

  /** How `Room::open` ends: the channel ran dry, an empty message made it
    * return, or an `unwrap` on a missing member panicked. */
  datatype Halt = Drained | Closed | Panicked

  datatype Step = Continue(next: Roster) | Stop(halt: Halt)

  /** The membership effect of one event. */
  function Advance(roster: Roster, e: Event): Step {
    match e
    case UserEnter(id, user) => Continue(roster[id := user.name])
    case NewMessage(from, text) =>
      if |text| == 0 then Stop(Closed)
      else if from !in roster then Stop(Panicked)
      else Continue(roster)
    case UserLeave(id) =>
      if id !in roster then Stop(Panicked) else Continue(roster - {id})
  }

  /** The roster after the events `open` handles, how many it handled and
    * why it stopped. */
  datatype Run = Run(roster: Roster, processed: nat, halt: Halt)

  function Shift(r: Run, n: nat): Run {
    r.(processed := r.processed + n)
  }

  function RunEvents(roster: Roster, events: seq<Event>): (r: Run)
    ensures r.processed <= |events|
    ensures r.halt == Drained <==> r.processed == |events|
    ensures r.halt == Closed ==> events[r.processed].NewMessage? && events[r.processed].text == []
    ensures r.halt == Panicked ==>
      (events[r.processed].NewMessage? && events[r.processed].text != []) || events[r.processed].UserLeave?
    ensures forall k :: 0 <= k < r.processed ==> !(events[k].NewMessage? && events[k].text == [])
    decreases |events|
  {
    if events == [] then Run(roster, 0, Drained)
    else
      match Advance(roster, events[0])
      case Stop(halt) => Run(roster, 0, halt)
      case Continue(next) => Shift(RunEvents(next, events[1..]), 1)
  }

  /** Once the room has stopped, later events change nothing. */
  lemma {:induction false} StopIgnoresLaterEvents(roster: Roster, events: seq<Event>, later: seq<Event>)
    requires RunEvents(roster, events).halt != Drained
    ensures RunEvents(roster, events + later) == RunEvents(roster, events)
    decreases |events|
  {
    assert (events + later)[0] == events[0];
    match Advance(roster, events[0])
    case Stop(_) =>
    case Continue(next) =>
      assert (events + later)[1..] == events[1..] + later;
      StopIgnoresLaterEvents(next, events[1..], later);
  }

  /** A member's own messages leave the room as it was. */
  lemma {:induction false} RunOwnMessages(roster: Roster, id: Id, chunks: seq<string>, tail: seq<Event>)
    requires id in roster
    requires forall k :: 0 <= k < |chunks| ==> chunks[k] != [] && Trim(chunks[k]) != []
    ensures |Messages(id, chunks)| == |chunks|
    ensures RunEvents(roster, Messages(id, chunks) + tail) == Shift(RunEvents(roster, tail), |chunks|)
    decreases |chunks|
  {
    if chunks != [] {
      var evs := Messages(id, chunks) + tail;
      assert evs[0] == NewMessage(id, Trim(chunks[0]));
      assert evs[1..] == Messages(id, chunks[1..]) + tail;
      assert Advance(roster, evs[0]) == Continue(roster);
      RunOwnMessages(roster, id, chunks[1..], tail);
      assert RunEvents(roster, evs) == Shift(RunEvents(roster, evs[1..]), 1);
    } else {
      assert Messages(id, chunks) + tail == tail;
    }
  }

  /** Entering, speaking only non-blank lines and leaving restores the roster. */
  lemma {:induction false} RunVisit(roster: Roster, id: Id, user: User, chunks: seq<string>)
    requires id !in roster
    requires forall k :: 0 <= k < |chunks| ==> chunks[k] != [] && Trim(chunks[k]) != []
    ensures RunEvents(roster, [UserEnter(id, user)] + (Messages(id, chunks) + [UserLeave(id)])) == Run(roster, |chunks| + 2, Drained)
  {
    var present := roster[id := user.name];
    var leave := [UserLeave(id)];
    var evs := [UserEnter(id, user)] + (Messages(id, chunks) + leave);
    assert evs[1..] == Messages(id, chunks) + leave;
    RunOwnMessages(present, id, chunks, leave);
    assert present - {id} == roster;
    assert leave[1..] == [];
  }

  /** A connection that completes its handshake, sends only non-blank lines
    * and disconnects leaves the room as it found it. */
  lemma {:induction false} SessionLeavesRosterUnchanged(roster: Roster, id: Id, socket: seq<string>, nameLine: string, chunks: seq<string>)
    requires id !in roster
    requires AcceptUser(socket, nameLine).Ok?
    requires forall k :: 0 <= k < |chunks| ==> chunks[k] != [] && Trim(chunks[k]) != []
    ensures RunEvents(roster, SessionEvents(id, socket, nameLine, chunks)) == Run(roster, |chunks| + 2, Drained)
  {
    var user := AcceptUser(socket, nameLine).value;
    RunVisit(roster, id, user, chunks);
    assert SessionEvents(id, socket, nameLine, chunks) == [UserEnter(id, user)] + (Messages(id, chunks) + [UserLeave(id)]);
  }

  /** The first message of a read loop, followed by the rest. */
  lemma {:induction false} MessagesCons(id: Id, chunks: seq<string>, tail: seq<Event>)
    requires chunks != [] && chunks[0] != []
    ensures (Messages(id, chunks) + tail)[0] == NewMessage(id, Trim(chunks[0]))
    ensures (Messages(id, chunks) + tail)[1..] == Messages(id, chunks[1..]) + tail
  {
    assert Messages(id, chunks) == [NewMessage(id, Trim(chunks[0]))] + Messages(id, chunks[1..]);
  }

  /** A member's blank line (a read that trims to nothing) makes the room
    * stop handling events altogether. */
  lemma {:induction false} BlankLineClosesRoom(roster: Roster, id: Id, chunks: seq<string>, tail: seq<Event>, j: nat)
    requires id in roster
    requires j < |chunks| && Trim(chunks[j]) == []
    requires forall k :: 0 <= k <= j ==> chunks[k] != []
    ensures RunEvents(roster, Messages(id, chunks) + tail).halt == Closed
    decreases j
  {
    var evs := Messages(id, chunks) + tail;
    MessagesCons(id, chunks, tail);
    if Trim(chunks[0]) == [] {
      assert Advance(roster, evs[0]) == Stop(Closed);
    } else {
      assert j > 0;
      assert Advance(roster, evs[0]) == Continue(roster);
      BlankLineClosesRoom(roster, id, chunks[1..], tail, j - 1);
      assert RunEvents(roster, evs) == Shift(RunEvents(roster, evs[1..]), 1);
    }
  }

  // ---------------------------------------------------------------------------
  // The whole room, sockets included, after a run of events

  datatype RoomStep = Go(next: map<Id, User>) | Halted(halt: Halt)

  /** One arm of `Room::open`, the present members listed in `order` when the
    * event is an entry. */
  function Handle(users: map<Id, User>, e: Event, order: seq<Id>): RoomStep
    requires e.UserEnter? ==> IsEnumeration(order, users.Keys)
  {
    match e
    case UserEnter(id, user) => Go(Entered(users, id, user, order))
    case NewMessage(from, text) =>
      if |text| == 0 then Halted(Closed)
      else if from !in users then Halted(Panicked)
      else Go(Said(users, from, text))
    case UserLeave(id) =>
      if id !in users then Halted(Panicked) else Go(Left(users, id))
  }

  /** `orders[k]` lists the members present when `events[k]` is handled, for
    * every entry the room reaches. */
  predicate Listings(users: map<Id, User>, events: seq<Event>, orders: seq<seq<Id>>)
    decreases |events|
  {
    && |orders| == |events|
    && (events != [] ==>
      && (events[0].UserEnter? ==> IsEnumeration(orders[0], users.Keys))
      && match Handle(users, events[0], orders[0])
         case Halted(_) => true
         case Go(next) => Listings(next, events[1..], orders[1..]))
  }

  /** The members after the events `open` handles, how many it handled and
    * why it stopped. */
  datatype RoomRun = RoomRun(users: map<Id, User>, processed: nat, halt: Halt)

  function RunRoom(users: map<Id, User>, events: seq<Event>, orders: seq<seq<Id>>): (r: RoomRun)
    requires Listings(users, events, orders)
    ensures r.processed <= |events|
    ensures r.halt == Drained <==> r.processed == |events|
    decreases |events|
  {
    if events == [] then RoomRun(users, 0, Drained)
    else
      match Handle(users, events[0], orders[0])
      case Halted(halt) => RoomRun(users, 0, halt)
      case Go(next) =>
        var r := RunRoom(next, events[1..], orders[1..]);
        r.(processed := r.processed + 1)
  }

  /** A run that handles its first event is that event followed by the run
    * of the rest. */
  lemma {:induction false} RunRoomGo(users: map<Id, User>, events: seq<Event>, orders: seq<seq<Id>>, next: map<Id, User>)
    requires events != [] && Listings(users, events, orders)
    requires Handle(users, events[0], orders[0]) == Go(next)
    ensures Listings(next, events[1..], orders[1..])
    ensures RunRoom(users, events, orders) == RunRoom(next, events[1..], orders[1..]).(processed := RunRoom(next, events[1..], orders[1..]).processed + 1)
  {
  }

  /** Whatever the listing orders, the whole-room run agrees with the roster
    * run: the same names, the same number of events handled, the same halt. */
  lemma {:induction false} RunRoomRoster(users: map<Id, User>, events: seq<Event>, orders: seq<seq<Id>>)
    requires Listings(users, events, orders)
    ensures var r := RunRoom(users, events, orders);
      RunEvents(NamesOf(users), events) == Run(NamesOf(r.users), r.processed, r.halt)
    decreases |events|
  {
    if events != [] {
      var roster := NamesOf(users);
      match events[0]
      case UserEnter(id, user) =>
        EnterAddsMember(users, id, user, orders[0]);
        RunRoomRoster(Entered(users, id, user, orders[0]), events[1..], orders[1..]);
      case NewMessage(from, text) =>
        if |text| != 0 && from in users {
          BroadcastReachesOthers(users, from, ChatLine(users[from].name, text));
          RunRoomRoster(Said(users, from, text), events[1..], orders[1..]);
        }
      case UserLeave(id) =>
        if id in users {
          LeaveNotifies(users, id);
          RunRoomRoster(Left(users, id), events[1..], orders[1..]);
        }
    }
  }

  /** Handling one more event after a run that handled everything. */
  lemma {:induction false} RunRoomSnoc(users: map<Id, User>, events: seq<Event>, orders: seq<seq<Id>>, e: Event, order: seq<Id>)
    requires Listings(users, events, orders)
    requires RunRoom(users, events, orders).halt == Drained
    requires e.UserEnter? ==> IsEnumeration(order, RunRoom(users, events, orders).users.Keys)
    ensures Listings(users, events + [e], orders + [order])
    ensures var v := RunRoom(users, events, orders).users;
      RunRoom(users, events + [e], orders + [order]) ==
        match Handle(v, e, order)
        case Go(w) => RoomRun(w, RunRoom(users, events, orders).processed + 1, Drained)
        case Halted(h) => RoomRun(v, RunRoom(users, events, orders).processed, h)
    decreases |events|
  {
    if events == [] {
      assert events + [e] == [e] && orders + [order] == [order];
    } else {
      assert (events + [e])[0] == events[0] && (orders + [order])[0] == orders[0];
      assert (events + [e])[1..] == events[1..] + [e];
      assert (orders + [order])[1..] == orders[1..] + [order];
      match Handle(users, events[0], orders[0])
      case Go(next) =>
        RunRoomSnoc(next, events[1..], orders[1..], e, order);
    }
  }

  /** Once the whole-room run has stopped, later events, listed in any way,
    * change nothing. */
  lemma {:induction false} RunRoomStopped(users: map<Id, User>, events: seq<Event>, orders: seq<seq<Id>>, later: seq<Event>, laterOrders: seq<seq<Id>>)
    requires Listings(users, events, orders)
    requires RunRoom(users, events, orders).halt != Drained
    requires |laterOrders| == |later|
    ensures Listings(users, events + later, orders + laterOrders)
    ensures RunRoom(users, events + later, orders + laterOrders) == RunRoom(users, events, orders)
    decreases |events|
  {
    assert (events + later)[0] == events[0] && (orders + laterOrders)[0] == orders[0];
    match Handle(users, events[0], orders[0])
    case Halted(_) =>
    case Go(next) =>
      assert (events + later)[1..] == events[1..] + later;
      assert (orders + laterOrders)[1..] == orders[1..] + laterOrders;
      RunRoomStopped(next, events[1..], orders[1..], later, laterOrders);
  }

  /** A run that has handled `events[..i]` and goes on to handle `events[i]`. */
  lemma {:induction false} RunRoomStep(users: map<Id, User>, events: seq<Event>, i: nat, orders: seq<seq<Id>>, order: seq<Id>, v: map<Id, User>, w: map<Id, User>)
    requires i < |events|
    requires Listings(users, events[..i], orders) && RunRoom(users, events[..i], orders) == RoomRun(v, i, Drained)
    requires events[i].UserEnter? ==> IsEnumeration(order, v.Keys)
    requires Handle(v, events[i], order) == Go(w)
    ensures Listings(users, events[..i + 1], orders + [order])
    ensures RunRoom(users, events[..i + 1], orders + [order]) == RoomRun(w, i + 1, Drained)
  {
    RunRoomSnoc(users, events[..i], orders, events[i], order);
    assert events[..i + 1] == events[..i] + [events[i]];
  }

  /** A run that halts at `events[i]` is the run of all of `events`, and the
    * roster run agrees with it. */
  lemma {:induction false} RunRoomHalts(users: map<Id, User>, events: seq<Event>, i: nat, orders: seq<seq<Id>>, order: seq<Id>, v: map<Id, User>, h: Halt)
    requires i < |events|
    requires Listings(users, events[..i], orders) && RunRoom(users, events[..i], orders) == RoomRun(v, i, Drained)
    requires events[i].UserEnter? ==> IsEnumeration(order, v.Keys)
    requires Handle(v, events[i], order) == Halted(h)
    ensures exists all :: Listings(users, events, all) && RunRoom(users, events, all) == RoomRun(v, i, h)
    ensures RunEvents(NamesOf(users), events) == Run(NamesOf(v), i, h)
  {
    RunRoomSnoc(users, events[..i], orders, events[i], order);
    var later := events[i + 1..];
    var laterOrders: seq<seq<Id>> := seq(|later|, _ => []);
    RunRoomStopped(users, events[..i] + [events[i]], orders + [order], later, laterOrders);
    assert events[..i] + [events[i]] + later == events;
    RunRoomRoster(users, events, orders + [order] + laterOrders);
  }

  // ---------------------------------------------------------------------------
  // The room task

  class Room {
    var users: map<Id, User>

    constructor ()
      ensures users == map[]
    {
      users := map[];
    }

    /** `Room::broadcast`. */
    method Broadcast(from: Id, line: string)
      modifies this
      ensures users == Broadcasted(old(users), from, line)
    {
      var targets := users.Keys - {from};
      while targets != {}
        invariant targets <= users.Keys
        invariant users.Keys == old(users).Keys
        invariant forall k :: k in users ==>
          users[k] == if k == from || k in targets then old(users)[k] else Deliver(old(users)[k], line)
        decreases targets
      {
        var k :| k in targets;
        users := users[k := Deliver(users[k], line)];
        targets := targets - {k};
      }
    }

    /** The names `here` collects for a joiner called `name`: every member's
      * name but `name`, listed in the map's iteration order. */
    method Here(name: string) returns (here: seq<string>, ghost order: seq<Id>)
      ensures IsEnumeration(order, users.Keys)
      ensures here == OthersNames(NamesOf(users), order, name)
    {
      here := [];
      order := [];
      var pending := users.Keys;
      while pending != {}
        invariant pending <= users.Keys
        invariant forall k :: k in order ==> k in users
        invariant forall k :: k in users ==> (k in order <==> k !in pending)
        invariant forall i, j :: 0 <= i < j < |order| ==> order[i] != order[j]
        invariant here == OthersNames(NamesOf(users), order, name)
        decreases pending
      {
        var k :| k in pending;
        assert (order + [k])[..|order|] == order;
        if users[k].name != name {
          here := here + [users[k].name];
        }
        order := order + [k];
        pending := pending - {k};
      }
    }

    /** The `UserEnter` arm of `Room::open`. */
    method Enter(id: Id, user: User)
      modifies this
      ensures exists order :: IsEnumeration(order, old(users).Keys) && users == Entered(old(users), id, user, order)
      ensures NamesOf(users) == NamesOf(old(users))[id := user.name]
    {
      ghost var before := users;
      Broadcast(id, EnteredLine(user.name));
      BroadcastReachesOthers(before, id, EnteredLine(user.name));
      var here, order := Here(user.name);
      var hello := RoomContainsLine(here);
      users := users[id := Deliver(user, hello)];
      EnterAddsMember(before, id, user, order);
    }

    /** The `NewMessage` arm of `Room::open`; `closed` when the text is empty,
      * which makes `open` return. */
    method Post(from: Id, text: string) returns (closed: bool)
      requires |text| != 0 ==> from in users
      modifies this
      ensures closed <==> |text| == 0
      ensures users == if closed then old(users) else Said(old(users), from, text)
    {
      if |text| == 0 {
        return true;
      }
      var name := users[from].name;
      Broadcast(from, ChatLine(name, text));
      return false;
    }

    /** The `UserLeave` arm of `Room::open`. */
    method Leave(id: Id)
      requires id in users
      modifies this
      ensures users == Left(old(users), id)
    {
      var name := users[id].name;
      Broadcast(id, LeftLine(name));
      users := users - {id};
    }

    /** `Room::open`: handle the events in order until they run out, an empty
      * message arrives, or a message or leave names an absent member. */
    method Open(events: seq<Event>) returns (processed: nat, halt: Halt)
      modifies this
      ensures exists orders ::
        Listings(old(users), events, orders) && RunRoom(old(users), events, orders) == RoomRun(users, processed, halt)
      ensures Run(NamesOf(users), processed, halt) == RunEvents(NamesOf(old(users)), events)
    {
      processed := 0;
      ghost var orders: seq<seq<Id>> := [];
      while processed < |events|
        invariant processed <= |events|
        invariant Listings(old(users), events[..processed], orders)
        invariant RunRoom(old(users), events[..processed], orders) == RoomRun(users, processed, Drained)
        decreases |events| - processed
      {
        var e := events[processed];
        ghost var was := users;
        ghost var order: seq<Id> := [];
        match e {
          case UserEnter(id, user) =>
            Enter(id, user);
            order :| IsEnumeration(order, was.Keys) && users == Entered(was, id, user, order);
          case NewMessage(from, text) =>
            if |text| != 0 && from !in users {
              RunRoomHalts(old(users), events, processed, orders, order, users, Panicked);
              return processed, Panicked;
            }
            var closed := Post(from, text);
            if closed {
              RunRoomHalts(old(users), events, processed, orders, order, users, Closed);
              return processed, Closed;
            }
          case UserLeave(id) =>
            if id !in users {
              RunRoomHalts(old(users), events, processed, orders, order, users, Panicked);
              return processed, Panicked;
            }
            Leave(id);
        }
        RunRoomStep(old(users), events, processed, orders, order, was, users);
        orders := orders + [order];
        processed := processed + 1;
      }
      halt := Drained;
      assert events[..processed] == events;
      RunRoomRoster(old(users), events, orders);
    }

  }

  // The walk-through: alice joins an empty room, bob joins, bob says "hi",
  // bob leaves. Each step states the whole room it leaves behind.

  const Alone: seq<string> := ["* The room contains: \n"]
  const BobArrived: seq<string> := Alone + ["* bob has entered the room\n"]
  const BobSpoke: seq<string> := BobArrived + ["[bob] hi\n"]
  const BobGone: seq<string> := BobSpoke + ["* bob has left the room\n"]
  const BobHello: seq<string> := ["* The room contains: alice\n"]

  lemma {:induction false} AliceEntersEmptyRoom(order: seq<Id>)
    requires IsEnumeration(order, {})
    ensures var u1 := Entered(map[], 0, User("alice", []), order);
            u1.Keys == {0} && u1[0] == User("alice", Alone)
  {
    var empty: map<Id, User> := map[];
    OthersNamesCount(NamesOf(empty), order, "alice");
    assert NamedOtherwise(NamesOf(empty), order, "alice") == {};
    assert RoomContainsLine([]) == "* The room contains: \n";
  }

  /** However a room holding only alice is listed, bob is told of alice. */
  lemma {:induction false} AliceListed(u1: map<Id, User>, order: seq<Id>)
    requires u1.Keys == {0} && u1[0].name == "alice"
    requires IsEnumeration(order, u1.Keys)
    ensures OthersNames(NamesOf(u1), order, "bob") == ["alice"]
  {
    var roster := NamesOf(u1);
    RoomContainsOthers(roster, order, "bob");
    assert roster == map[0 := "alice"];
    assert roster.Values == {"alice"};
    assert (set k | k in roster && roster[k] != "bob") == {0};
    var names := OthersNames(roster, order, "bob");
    assert |names| == 1 && names[0] in names;
  }

  lemma {:induction false} BobEntersAfterAlice(u1: map<Id, User>, order: seq<Id>)
    requires u1.Keys == {0} && u1[0] == User("alice", Alone)
    requires IsEnumeration(order, u1.Keys)
    ensures var u2 := Entered(u1, 1, User("bob", []), order);
            u2.Keys == {0, 1} && u2[0] == User("alice", BobArrived) && u2[1] == User("bob", BobHello)
  {
    AliceListed(u1, order);
    BobHelloLine();
    BobEnteredLine();
    var mid := Broadcasted(u1, 1, EnteredLine("bob"));
    assert mid.Keys == {0} && mid[0] == Deliver(u1[0], EnteredLine("bob"));
  }

  // The lines bob's visit produces, spelled out one by one.

  lemma {:induction false} BobHelloLine()
    ensures RoomContainsLine(["alice"]) == BobHello[0]
  {
    assert Join(["alice"], ", ") == "alice";
  }

  lemma {:induction false} BobEnteredLine()
    ensures EnteredLine("bob") == BobArrived[1]
  {
  }

  lemma {:induction false} BobChatLine()
    ensures ChatLine("bob", "hi") == BobSpoke[2]
  {
  }

  lemma {:induction false} BobLeftLine()
    ensures LeftLine("bob") == BobGone[3]
  {
  }

  lemma {:induction false} BobSaysHi(u2: map<Id, User>)
    requires u2.Keys == {0, 1} && u2[0] == User("alice", BobArrived) && u2[1] == User("bob", BobHello)
    ensures var u3 := Said(u2, 1, "hi");
            u3.Keys == {0, 1} && u3[0] == User("alice", BobSpoke) && u3[1] == User("bob", BobHello)
  {
    BobChatLine();
  }

  lemma {:induction false} BobLeaves(u3: map<Id, User>)
    requires u3.Keys == {0, 1} && u3[0] == User("alice", BobSpoke) && u3[1] == User("bob", BobHello)
    ensures var u4 := Left(u3, 1);
            u4.Keys == {0} && u4[0] == User("alice", BobGone)
  {
    BobLeftLine();
  }

  /** Alice's socket records the whole conversation, bob is told alice is
    * there, and the room ends as alice alone. */
  lemma {:induction false} AliceAndBob()
    ensures var u1 := Entered(map[], 0, User("alice", []), []);
            var u2 := Entered(u1, 1, User("bob", []), [0]);
            var u4 := Left(Said(u2, 1, "hi"), 1);
            && u2[1].socket == ["* The room contains: alice\n"]
            && u4.Keys == {0}
            && u4[0].socket == ["* The room contains: \n", "* bob has entered the room\n", "[bob] hi\n", "* bob has left the room\n"]
  {
    var u1 := Entered(map[], 0, User("alice", []), []);
    AliceEntersEmptyRoom([]);
    var u2 := Entered(u1, 1, User("bob", []), [0]);
    BobEntersAfterAlice(u1, [0]);
    var u3 := Said(u2, 1, "hi");
    BobSaysHi(u2);
    BobLeaves(u3);
  }

  const Script: seq<Event> := [UserEnter(0, User("alice", [])), UserEnter(1, User("bob", [])), NewMessage(1, "hi"), UserLeave(1)]

  /** The room task, handed the walk-through's events, handles all four and
    * leaves alice alone with the whole conversation on her socket, however
    * the members are listed. */
  lemma {:induction false} AliceAndBobOpen(orders: seq<seq<Id>>)
    requires Listings(map[], Script, orders)
    ensures var r := RunRoom(map[], Script, orders);
            && r == RoomRun(r.users, 4, Drained)
            && r.users.Keys == {0}
            && r.users[0].socket == ["* The room contains: \n", "* bob has entered the room\n", "[bob] hi\n", "* bob has left the room\n"]
  {
    var u1 := Entered(map[], 0, User("alice", []), orders[0]);
    AliceEntersEmptyRoom(orders[0]);
    RunRoomGo(map[], Script, orders, u1);
    var u2 := Entered(u1, 1, User("bob", []), orders[1]);
    BobEntersAfterAlice(u1, orders[1]);
    RunRoomGo(u1, Script[1..], orders[1..], u2);
    var u3 := Said(u2, 1, "hi");
    BobSaysHi(u2);
    assert Script[1..][1..] == Script[2..] && orders[1..][1..] == orders[2..];
    RunRoomGo(u2, Script[2..], orders[2..], u3);
    var u4 := Left(u3, 1);
    BobLeaves(u3);
    assert Script[2..][1..] == Script[3..] && orders[2..][1..] == orders[3..];
    RunRoomGo(u3, Script[3..], orders[3..], u4);
    assert Script[3..][1..] == [];
    ConversationSpelled();
  }

  lemma {:induction false} ConversationSpelled()
    ensures BobGone == ["* The room contains: \n", "* bob has entered the room\n", "[bob] hi\n", "* bob has left the room\n"]
  {
  }
}
