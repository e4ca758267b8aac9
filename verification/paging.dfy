/** Pulls: sealed cursors, pages with a byte budget, and scans of several pages. */
module Paging {
  import opened SyncTypes
  import opened Server

  const DEFAULT_PAGE_SIZE := 200
  const MAX_PAGE_SIZE := 500
  const MAX_PAGE_CANDIDATES := 16
  const MAX_PAGE_ENCODED_BYTES := 1024 * 1024

  datatype Position = Position(position: int, highWater: int)

  /** Authenticated encryption: the server's seal opens to its payload, every other text fails. */
  datatype Token =
    | Sealed(nonce: nat, owner: OwnerId, payload: Position)
    | Unsealed(text: string)

  datatype PullError = InvalidSyncCursor

  datatype Page = Page(changes: seq<Snapshot>, next: Position, caughtUp: bool)

  datatype PullResponse = PullResponse(changes: seq<Snapshot>, nextCursor: Token, caughtUp: bool)

  function Encode(nonce: nat, owner: OwnerId, p: Position): Token { Sealed(nonce, owner, p) }

  function Decode(token: Token, expected: OwnerId): Result<Position, PullError> {
    if token.Unsealed? then Err(InvalidSyncCursor)
    else if token.owner != expected || token.payload.position < 0
            || token.payload.highWater < token.payload.position then Err(InvalidSyncCursor)
    else Ok(token.payload)
  }

  function Limit(requested: Option<nat>): nat {
    var limit := if requested.None? then DEFAULT_PAGE_SIZE else requested.value;
    var clamped := if limit < 1 then 1 else if limit > MAX_PAGE_SIZE then MAX_PAGE_SIZE else limit;
    if clamped < MAX_PAGE_CANDIDATES then clamped else MAX_PAGE_CANDIDATES
  }

  /** A finished scan starts a new one up to the current clock; an unfinished one keeps its high water. */
  function Freeze(cursor: Option<Position>, clock: nat): Position {
    match cursor
    case None => Position(0, clock)
    case Some(p) => if p.position >= p.highWater then Position(p.position, clock) else p
  }

  /** The query: log positions after `position` up to `highWater`, ascending, at most `limit`. */
  function Rows(changes: map<nat, Snapshot>, position: int, highWater: int, limit: nat): (rows: seq<nat>)
    requires position >= 0
    ensures forall i | 0 <= i < |rows| :: rows[i] in changes
    decreases highWater - position
  {
    if position >= highWater || limit == 0 then []
    else if position + 1 in changes then [position + 1] + Rows(changes, position + 1, highWater, limit - 1)
    else Rows(changes, position + 1, highWater, limit)
  }

  /** Bytes of a JSON array whose elements have these sizes. */
  function EncodedBytes(sizes: seq<nat>): nat {
    if sizes == [] then 2
    else
      var n := |sizes| - 1;
      EncodedBytes(sizes[..n]) + (if n > 0 then 1 else 0) + sizes[n]
  }

  function Sum(sizes: seq<nat>): nat { if sizes == [] then 0 else sizes[0] + Sum(sizes[1..]) }

  lemma {:induction false} SumAppend(sizes: seq<nat>, last: nat)
    ensures Sum(sizes + [last]) == Sum(sizes) + last
    decreases sizes
  {
    if sizes == [] {
      assert [last][1..] == [];
    } else {
      assert (sizes + [last])[1..] == sizes[1..] + [last];
      SumAppend(sizes[1..], last);
    }
  }

  /** Two brackets, the elements, and a comma between each two. */
  lemma {:induction false} ArrayBytesAreExact(sizes: seq<nat>)
    ensures EncodedBytes(sizes) == 2 + Sum(sizes) + if |sizes| < 2 then 0 else |sizes| - 1
    decreases sizes
  {
    if sizes != [] {
      var n := |sizes| - 1;
      ArrayBytesAreExact(sizes[..n]);
      SumAppend(sizes[..n], sizes[n]);
      assert sizes == sizes[..n] + [sizes[n]];
    }
  }

  /** Where the page loop stops, having taken `taken` rows in `used` bytes. */
  function Fit(sizes: seq<nat>, taken: nat, used: nat): (n: nat)
    requires taken <= |sizes|
    ensures taken <= n <= |sizes|
    decreases |sizes| - taken
  {
    if taken == |sizes| then taken
    else
      var next := used + (if taken > 0 then 1 else 0) + sizes[taken];
      if taken > 0 && next > MAX_PAGE_ENCODED_BYTES then taken
      else Fit(sizes, taken + 1, next)
  }

  /** The longest prefix within the budget, or one row that alone exceeds it. */
  ghost predicate LongestFit(sizes: seq<nat>, n: nat) {
    && n <= |sizes|
    && (sizes != [] ==> n > 0)
    && (n > 1 ==> EncodedBytes(sizes[..n]) <= MAX_PAGE_ENCODED_BYTES)
    && (forall k | n < k <= |sizes| :: EncodedBytes(sizes[..k]) > MAX_PAGE_ENCODED_BYTES)
  }

  lemma {:induction false} EncodedBytesGrow(sizes: seq<nat>, a: nat, b: nat)
    requires a <= b <= |sizes|
    ensures EncodedBytes(sizes[..a]) <= EncodedBytes(sizes[..b])
  {
    if a < b {
      assert sizes[..b][..b - 1] == sizes[..b - 1];
      EncodedBytesGrow(sizes, a, b - 1);
    }
  }

  lemma {:induction false} FitFrom(sizes: seq<nat>, taken: nat, used: nat)
    requires taken <= |sizes|
    requires used == EncodedBytes(sizes[..taken])
    requires taken > 1 ==> used <= MAX_PAGE_ENCODED_BYTES
    ensures LongestFit(sizes, Fit(sizes, taken, used))
    decreases |sizes| - taken
  {
    if taken < |sizes| {
      var next := used + (if taken > 0 then 1 else 0) + sizes[taken];
      assert sizes[..taken + 1][..taken] == sizes[..taken];
      assert EncodedBytes(sizes[..taken + 1]) == next;
      if taken > 0 && next > MAX_PAGE_ENCODED_BYTES {
        forall k | taken < k <= |sizes|
          ensures EncodedBytes(sizes[..k]) > MAX_PAGE_ENCODED_BYTES
        {
          EncodedBytesGrow(sizes, taken + 1, k);
        }
      } else {
        FitFrom(sizes, taken + 1, next);
      }
    }
  }

  /** The loop takes exactly the longest fit, and no other length is one. */
  lemma PageIsLongestFit(sizes: seq<nat>, n: nat)
    ensures LongestFit(sizes, n) <==> n == Fit(sizes, 0, 2)
  {
    assert sizes[..0] == [];
    FitFrom(sizes, 0, 2);
  }

  function Sizes(rows: seq<nat>, changes: map<nat, Snapshot>, size: Snapshot -> nat): (sizes: seq<nat>)
    requires forall i | 0 <= i < |rows| :: rows[i] in changes
  {
    seq(|rows|, i requires 0 <= i < |rows| => size(changes[rows[i]]))
  }

  function Snapshots(rows: seq<nat>, changes: map<nat, Snapshot>): (snapshots: seq<Snapshot>)
    requires forall i | 0 <= i < |rows| :: rows[i] in changes
  {
    seq(|rows|, i requires 0 <= i < |rows| => changes[rows[i]])
  }

  function PageAt(s: State, size: Snapshot -> nat, at: Position, limit: nat): Page
    requires at.position >= 0
  {
    var rows := Rows(s.changes, at.position, at.highWater, limit);
    var taken := rows[..Fit(Sizes(rows, s.changes, size), 0, 2)];
    var next := if taken == [] then at.position else taken[|taken| - 1];
    Page(Snapshots(taken, s.changes), Position(next, at.highWater), next >= at.highWater)
  }

  function Pull(s: State, size: Snapshot -> nat, owner: OwnerId, cursor: Option<Token>,
                requested: Option<nat>, nonce: nat): Result<PullResponse, PullError>
  {
    if cursor.Some? && Decode(cursor.value, owner).Err? then Err(InvalidSyncCursor)
    else
      var start := if cursor.None? then None else Some(Decode(cursor.value, owner).value);
      var page := PageAt(s, size, Freeze(start, s.clock), Limit(requested));
      Ok(PullResponse(page.changes, Encode(nonce, owner, page.next), page.caughtUp))
  }

  // Scans ------------------------------------------------------------------

  /** The log entries after one position up to another. */
  function Entries(changes: map<nat, Snapshot>, after: nat, upTo: nat): seq<Snapshot>
    requires after <= upTo
    requires forall c: nat | after < c <= upTo :: c in changes
    decreases upTo - after
  {
    if after == upTo then [] else [changes[after + 1]] + Entries(changes, after + 1, upTo)
  }

  lemma {:induction false} EntriesAt(changes: map<nat, Snapshot>, after: nat, upTo: nat)
    requires forall c: nat | after < c <= upTo :: c in changes
    requires after <= upTo
    ensures |Entries(changes, after, upTo)| == upTo - after
    ensures forall i | 0 <= i < upTo - after :: Entries(changes, after, upTo)[i] == changes[after + 1 + i]
    decreases upTo - after
  {
    if after < upTo {
      EntriesAt(changes, after + 1, upTo);
    }
  }

  /** Positions 1..clock are all present, so the query returns a run of consecutive ones. */
  lemma {:induction false} RowsAreConsecutive(s: State, position: nat, highWater: nat, limit: nat)
    requires LogValid(s)
    requires position <= highWater <= s.clock
    ensures var rows := Rows(s.changes, position, highWater, limit);
            && |rows| == (if limit < highWater - position then limit else highWater - position)
            && (forall i | 0 <= i < |rows| :: rows[i] == position + 1 + i)
    decreases highWater - position
  {
    if position < highWater && limit > 0 {
      RowsAreConsecutive(s, position + 1, highWater, limit - 1);
    }
  }

  /** One page is a run of log entries; it is not empty unless the scan is already at its high water. */
  lemma PageIsARun(s: State, size: Snapshot -> nat, at: Position, limit: nat)
    requires LogValid(s)
    requires 0 <= at.position <= at.highWater <= s.clock
    requires limit > 0
    ensures var page := PageAt(s, size, at, limit);
            && at.position <= page.next.position <= at.highWater
            && page.next.highWater == at.highWater
            && page.changes == Entries(s.changes, at.position, page.next.position)
            && (at.position < at.highWater ==> at.position < page.next.position)
            && (page.caughtUp <==> page.next.position == at.highWater)
  {
    RowsAreConsecutive(s, at.position, at.highWater, limit);
    var rows := Rows(s.changes, at.position, at.highWater, limit);
    var sizes := Sizes(rows, s.changes, size);
    PageIsLongestFit(sizes, Fit(sizes, 0, 2));
    var page := PageAt(s, size, at, limit);
    EntriesAt(s.changes, at.position, page.next.position);
  }

  /** The change after this position would take the page over its bytes. */
  predicate NextDoesNotFit(s: State, size: Snapshot -> nat, changes: seq<Snapshot>, position: int) {
    && 0 <= position && position + 1 in s.changes
    && EncodedBytes(ChangeSizes(changes + [s.changes[position + 1]], size)) > 1024 * 1024
  }

  function ChangeSizes(changes: seq<Snapshot>, size: Snapshot -> nat): seq<nat> {
    seq(|changes|, i requires 0 <= i < |changes| => size(changes[i]))
  }

  /** A page ends at its limit, at its high water, or where the next change does not fit the bytes. */
  lemma PageStopsForAReason(s: State, size: Snapshot -> nat, at: Position, limit: nat)
    requires LogValid(s) && 0 <= at.position <= at.highWater <= s.clock
    ensures var page := PageAt(s, size, at, limit);
            && |page.changes| <= limit
            && (|page.changes| == limit || page.caughtUp || NextDoesNotFit(s, size, page.changes, page.next.position))
  {
    RowsAreConsecutive(s, at.position, at.highWater, limit);
    var rows := Rows(s.changes, at.position, at.highWater, limit);
    var sizes := Sizes(rows, s.changes, size);
    var taken := Fit(sizes, 0, 2);
    PageIsLongestFit(sizes, taken);
    if taken < |rows| {
      var page := PageAt(s, size, at, limit);
      assert page.next.position + 1 == rows[taken];
      assert ChangeSizes(page.changes + [s.changes[rows[taken]]], size) == sizes[..taken + 1];
    }
  }

  /** Pages pulled one after another, each from its predecessor's cursor, while the server moves on. */
  ghost predicate Scan(states: seq<State>, limits: seq<nat>, size: Snapshot -> nat,
                       start: Option<Position>, pages: seq<Page>)
    requires |states| == |limits| == |pages|
    decreases |pages|
  {
    pages == []
    || (&& Freeze(start, states[0].clock).position >= 0
        && pages[0] == PageAt(states[0], size, Freeze(start, states[0].clock), limits[0])
        && (|pages| > 1 ==> !pages[0].caughtUp)
        && Scan(states[1..], limits[1..], size, Some(pages[0].next), pages[1..]))
  }

  /** Successive states of one server: each has grown from every earlier one. */
  ghost predicate Evolving(states: seq<State>) {
    && (forall i | 0 <= i < |states| :: LogValid(states[i]))
    && (forall i, j | 0 <= i < j < |states| :: Grows(states[i], states[j]))
  }

  function Concat(pages: seq<Page>): seq<Snapshot> {
    if pages == [] then [] else pages[0].changes + Concat(pages[1..])
  }

  lemma {:induction false} EntriesJoin(old_: map<nat, Snapshot>, changes: map<nat, Snapshot>, a: nat, b: nat, c: nat)
    requires a <= b <= c
    requires forall d: nat | a < d <= c :: d in changes
    requires forall d: nat | a < d <= b :: d in old_ && changes[d] == old_[d]
    ensures Entries(old_, a, b) + Entries(changes, b, c) == Entries(changes, a, c)
    decreases b - a
  {
    if a == b {
      assert Entries(old_, a, b) == [];
    } else {
      EntriesJoin(old_, changes, a + 1, b, c);
      var head, middle, tail := [changes[a + 1]], Entries(old_, a + 1, b), Entries(changes, b, c);
      assert Entries(old_, a, b) == head + middle;
      assert (head + middle) + tail == head + (middle + tail);
      assert Entries(changes, a, c) == head + Entries(changes, a + 1, c);
    }
  }

  lemma JoinAcrossStates(s: State, t: State, a: nat, b: nat, c: nat)
    requires LogValid(s) && LogValid(t) && Grows(s, t)
    requires a <= b <= s.clock && b <= c <= t.clock
    ensures Entries(s.changes, a, b) + Entries(t.changes, b, c) == Entries(t.changes, a, c)
  {
    EntriesJoin(s.changes, t.changes, a, b, c);
  }

  /** What a scan is worth: the entries from its start to where it stands, and how far that is. */
  ghost predicate ScanExact(from: Position, pages: seq<Page>, now: State)
    requires pages != []
  {
    var end := pages[|pages| - 1].next;
    && end.highWater == from.highWater
    && 0 <= from.position <= end.position <= from.highWater <= now.clock
    && LogValid(now)
    && Concat(pages) == Entries(now.changes, from.position, end.position)
    && (pages[|pages| - 1].caughtUp <==> end.position == from.highWater)
    && (from.position < from.highWater ==> from.position + |pages| <= end.position)
    && (|pages| >= from.highWater - from.position ==> pages[|pages| - 1].caughtUp)
  }

  /** A first page and the rest of the scan. */
  lemma ScanJoins(s: State, from: Position, pages: seq<Page>, now: State)
    requires |pages| > 1 && LogValid(s) && Grows(s, now)
    requires 0 <= from.position <= pages[0].next.position < from.highWater <= s.clock
    requires pages[0].next.highWater == from.highWater
    requires pages[0].changes == Entries(s.changes, from.position, pages[0].next.position)
    requires from.position < from.highWater ==> from.position < pages[0].next.position
    requires ScanExact(pages[0].next, pages[1..], now)
    ensures ScanExact(from, pages, now)
  {
    var next := pages[0].next;
    JoinAcrossStates(s, now, from.position, next.position, pages[|pages| - 1].next.position);
  }

  /**
   * A scan that is interleaved with any writes and uses any limits and page budgets
   * returns exactly the log entries after its start up to where it stands, in order and
   * once each; its high water is the one frozen by its first page; and it is caught up
   * after at most (high water - start) pages.
   */
  lemma {:induction false} ScanIsExact(states: seq<State>, limits: seq<nat>, size: Snapshot -> nat,
                                       start: Option<Position>, pages: seq<Page>)
    requires |states| == |limits| == |pages| > 0
    requires Evolving(states)
    requires forall i | 0 <= i < |limits| :: limits[i] > 0
    requires start.Some? ==> 0 <= start.value.position <= start.value.highWater <= states[0].clock
    requires Scan(states, limits, size, start, pages)
    ensures ScanExact(Freeze(start, states[0].clock), pages, states[|states| - 1])
    decreases |pages|
  {
    var from := Freeze(start, states[0].clock);
    PageIsARun(states[0], size, from, limits[0]);
    if |pages| == 1 {
      assert pages[1..] == [];
      assert Concat(pages) == pages[0].changes;
    } else {
      assert Grows(states[0], states[1]);
      ScanIsExact(states[1..], limits[1..], size, Some(pages[0].next), pages[1..]);
      ScanJoins(states[0], from, pages, states[|states| - 1]);
    }
  }

  // Cursors ----------------------------------------------------------------

  /** The cursor opens for its owner, and its scan lies within the log. */
  ghost predicate TokenValid(token: Token, owner: OwnerId, clock: nat) {
    match Decode(token, owner)
    case Ok(p) => 0 <= p.position <= p.highWater <= clock
    case Err(_) => false
  }

  lemma PullIssuesValidToken(s: State, size: Snapshot -> nat, owner: OwnerId, cursor: Option<Token>,
                             requested: Option<nat>, nonce: nat)
    requires LogValid(s)
    requires cursor.Some? && Decode(cursor.value, owner).Ok? ==> TokenValid(cursor.value, owner, s.clock)
    ensures match Pull(s, size, owner, cursor, requested, nonce)
            case Ok(response) =>
              && TokenValid(response.nextCursor, owner, s.clock)
              && (forall other | other != owner :: Decode(response.nextCursor, other).Err?)
            case Err(_) => cursor.Some? && Decode(cursor.value, owner).Err?
  {
    if cursor.None? || Decode(cursor.value, owner).Ok? {
      var start := if cursor.None? then None else Some(Decode(cursor.value, owner).value);
      PageIsARun(s, size, Freeze(start, s.clock), Limit(requested));
    }
  }

  /** How many changes a request asks for: at least one, and no more than the server looks at for one page. */
  predicate AsksFor(requested: Option<nat>, n: nat) {
    && 1 <= n <= 16
    && (requested.None? ==> n == 16)
    && (requested.Some? ==> (n == 16 && requested.value >= 16) || n == requested.value || (n == 1 && requested.value == 0))
  }

  /**
   * A page never holds more changes than were asked for, and ends before that only at its high water or where the next
   * change does not fit the bytes.
   */
  lemma PageHoldsWhatWasAsked(s: State, size: Snapshot -> nat, owner: OwnerId, cursor: Option<Token>,
                              requested: Option<nat>, nonce: nat, n: nat)
    requires LogValid(s) && AsksFor(requested, n)
    requires cursor.Some? ==> TokenValid(cursor.value, owner, s.clock)
    ensures Pull(s, size, owner, cursor, requested, nonce).Ok?
    ensures var response := Pull(s, size, owner, cursor, requested, nonce).value;
            && |response.changes| <= n
            && (|response.changes| == n || response.caughtUp
                || NextDoesNotFit(s, size, response.changes, response.nextCursor.payload.position))
  {
    var start := if cursor.None? then None else Some(Decode(cursor.value, owner).value);
    PageStopsForAReason(s, size, Freeze(start, s.clock), n);
  }

  /** A pull is refused exactly if its cursor is not a seal for this owner on a position up to its high water. */
  lemma PullRefusalIsExact(s: State, size: Snapshot -> nat, owner: OwnerId, cursor: Option<Token>,
                           requested: Option<nat>, nonce: nat)
    ensures Pull(s, size, owner, cursor, requested, nonce).Ok? <==>
              cursor.None?
              || (cursor.value.Sealed? && cursor.value.owner == owner
                  && 0 <= cursor.value.payload.position <= cursor.value.payload.highWater)
  {
  }

  /** What a server does for one owner: mutations arrive, and cursors are presented for pulls. */
  datatype Event =
    | Push(delivery: Delivery)
    | PullWith(cursor: Option<Token>, requested: Option<nat>, nonce: nat)

  datatype History = History(state: State, issued: set<Token>)

  function Handle(h: History, size: Snapshot -> nat, owner: OwnerId, e: Event): History {
    match e
    case Push(d) => h.(state := Apply(h.state, d.client, d.mutation).state)
    case PullWith(cursor, requested, nonce) =>
      match Pull(h.state, size, owner, cursor, requested, nonce)
      case Ok(response) => h.(issued := h.issued + {response.nextCursor})
      case Err(_) => h
  }

  /** A client may present any text, but a seal for this owner can only come from the server. */
  predicate Unforged(h: History, owner: OwnerId, e: Event) {
    e.PullWith? && e.cursor.Some? && e.cursor.value.Sealed? && e.cursor.value.owner == owner
    ==> e.cursor.value in h.issued
  }

  ghost predicate HistoryOf(h: History, size: Snapshot -> nat, owner: OwnerId, events: seq<Event>, end: History)
    decreases events
  {
    if events == [] then end == h
    else Unforged(h, owner, events[0]) && HistoryOf(Handle(h, size, owner, events[0]), size, owner, events[1..], end)
  }

  ghost predicate IssuedValid(h: History, owner: OwnerId) {
    && LogValid(h.state)
    && forall token | token in h.issued :: TokenValid(token, owner, h.state.clock)
  }

  /** A cursor once issued stays valid in every later state. */
  lemma {:induction false} IssuedCursorsStayValid(h: History, size: Snapshot -> nat, owner: OwnerId,
                                                  events: seq<Event>, end: History)
    requires IssuedValid(h, owner)
    requires HistoryOf(h, size, owner, events, end)
    ensures IssuedValid(end, owner)
    ensures h.issued <= end.issued
    decreases events
  {
    if events != [] {
      var e := events[0];
      match e {
        case Push(d) => ApplyKeepsLog(h.state, d.client, d.mutation);
        case PullWith(cursor, requested, nonce) =>
          PullIssuesValidToken(h.state, size, owner, cursor, requested, nonce);
      }
      IssuedCursorsStayValid(Handle(h, size, owner, e), size, owner, events[1..], end);
    }
  }
}
