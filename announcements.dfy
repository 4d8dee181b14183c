/**
  The announcement table of the school management system, as values: the
  stored record, the validity window, the guard chains the handlers run
  before writing, and the store query that lists records newest first.
 */
module Announcements {
  import opened LexOrder

  datatype Option<T> = None | Some(value: T)

  /** The HTTP errors the handlers raise, one constructor per `detail`. */
  datatype Error =
    | Unauthorized             // 401 "Unauthorized"
    | InvalidId                // 400 "Invalid announcement ID"
    | NotFound                 // 404 "Announcement not found"
    | InvalidExpirationFormat  // 400 "Invalid expiration date format"
    | ExpirationNotFuture      // 400 "Expiration date must be in the future"
    | InvalidStartFormat       // 400 "Invalid start date format"

  datatype Result<T> = Ok(value: T) | Err(error: Error)

  /** The verdict of a guard chain: go on to the write, or stop with an error. */
  datatype Outcome = Pass | Fail(error: Error)

  /** The value of a store-assigned ObjectId. */
  type Oid = nat

  /** A stored document without its `_id`; timestamps are kept as the strings received. */
  datatype Announcement = Announcement(
    message: string,
    expirationDate: string,
    startDate: Option<string>,
    createdBy: string,
    createdAt: string)

  /** A document as a handler returns it: the `_id` rendered as a string, the rest as stored. */
  datatype View = View(id: string, record: Announcement)

  /**
    One reading of `datetime.utcnow()`: `utc` is the naive datetime, `stamp`
    is its `isoformat()` with "Z" appended.
   */
  datatype Clock = Clock(utc: int, stamp: string)

  /**
    What `datetime.fromisoformat` yields: a wall-clock time, and the UTC offset
    when the text carried one (an aware datetime) or None (a naive datetime).
   */
  datatype DateTime = DateTime(wall: int, utcOffset: Option<int>)

  function UtcInstant(d: DateTime): (t: int)
  {
    d.wall - (if d.utcOffset.Some? then d.utcOffset.value else 0)
  }

  /** Python truthiness of an `Optional[str]`: present and not empty. */
  predicate Given(start: Option<string>)
  {
    start.Some? && start.value != ""
  }

  // ---------------------------------------------------------------------------
  // The active window

  /** `expiration_date >= now` and (`start_date` absent or `start_date <= now`), on the stored strings. */
  predicate IsActive(a: Announcement, now: string)
  {
    LexLe(now, a.expirationDate) && (a.startDate.None? || LexLe(a.startDate.value, now))
  }

  /** The instants at which a record is active form an interval: no gaps between two of them. */
  lemma ActiveWindowIsInterval(a: Announcement, t1: string, t2: string, t3: string)
    requires IsActive(a, t1) && IsActive(a, t3)
    requires LexLe(t1, t2) && LexLe(t2, t3)
    ensures IsActive(a, t2)
  {
    LexLeTransitive(t2, t3, a.expirationDate);
    if a.startDate.Some? {
      LexLeTransitive(a.startDate.value, t1, t2);
    }
  }

  /**
    A record is inactive exactly when now is strictly past its expiration date,
    or its start date is strictly after now.
   */
  lemma OutsideWindowNotActive(a: Announcement, now: string)
    ensures !IsActive(a, now)
            <==> (LexLe(a.expirationDate, now) && a.expirationDate != now)
                 || (a.startDate.Some? && LexLe(now, a.startDate.value) && a.startDate.value != now)
  {
    LexLeReflexive(now);
    LexLeTotal(now, a.expirationDate);
    if LexLe(now, a.expirationDate) && LexLe(a.expirationDate, now) {
      LexLeAntisymmetric(now, a.expirationDate);
    }
    if a.startDate.Some? {
      LexLeTotal(now, a.startDate.value);
      if LexLe(now, a.startDate.value) && LexLe(a.startDate.value, now) {
        LexLeAntisymmetric(now, a.startDate.value);
      }
    }
  }

  // ---------------------------------------------------------------------------
  // The store query: find(filter).sort("created_at", -1)

  datatype Filter = All | ActiveAt(now: string)

  predicate Matches(f: Filter, a: Announcement)
  {
    match f
    case All => true
    case ActiveAt(now) => IsActive(a, now)
  }

  type Entry = (Oid, Announcement)

  /** Ordered by `created_at`, descending; ties in any order. */
  predicate NewestFirst(s: seq<Entry>)
  {
    forall i, j :: 0 <= i < j < |s| ==> LexLe(s[j].1.createdAt, s[i].1.createdAt)
  }

  function Ids(s: seq<Entry>): (ids: set<Oid>)
  {
    set x | x in s :: x.0
  }

  predicate DistinctIds(s: seq<Entry>)
  {
    forall i, j :: 0 <= i < j < |s| ==> s[i].0 != s[j].0
  }

  function MatchingIds(m: map<Oid, Announcement>, f: Filter): (ids: set<Oid>)
  {
    set k | k in m && Matches(f, m[k])
  }

  /**
    `found` lists every stored record the filter matches, each once and as
    stored, and nothing else, newest first: a sorted permutation of the
    matching records.
   */
  predicate QueryResult(found: seq<Entry>, m: map<Oid, Announcement>, f: Filter)
  {
    && NewestFirst(found)
    && DistinctIds(found)
    && (forall x :: x in found ==> x.0 in m && x.1 == m[x.0] && Matches(f, x.1))
    && (forall k :: k in m && Matches(f, m[k]) ==> k in Ids(found))
  }

  /** Where `e` goes in a newest-first sequence: before the first record no newer than it. */
  function InsertPosition(s: seq<Entry>, e: Entry): (p: nat)
    ensures p <= |s|
    ensures forall i :: 0 <= i < p ==> !LexLe(s[i].1.createdAt, e.1.createdAt)
    ensures p < |s| ==> LexLe(s[p].1.createdAt, e.1.createdAt)
  {
    if s == [] || LexLe(s[0].1.createdAt, e.1.createdAt) then 0
    else 1 + InsertPosition(s[1..], e)
  }

  function Insert(s: seq<Entry>, e: Entry): (r: seq<Entry>)
  {
    var p := InsertPosition(s, e);
    s[..p] + [e] + s[p..]
  }

  lemma InsertAt(s: seq<Entry>, e: Entry, k: int)
    requires 0 <= k <= |s|
    ensures |Insert(s, e)| == |s| + 1
    ensures var p := InsertPosition(s, e);
      Insert(s, e)[k] == if k < p then s[k] else if k == p then e else s[k - 1]
  {
  }

  /** Inserting keeps a newest-first sequence newest first. */
  lemma InsertKeepsNewestFirst(s: seq<Entry>, e: Entry)
    requires NewestFirst(s)
    ensures NewestFirst(Insert(s, e))
  {
    var p := InsertPosition(s, e);
    var r := Insert(s, e);
    forall i, j | 0 <= i < j < |r|
      ensures LexLe(r[j].1.createdAt, r[i].1.createdAt)
    {
      InsertAt(s, e, i);
      InsertAt(s, e, j);
      if j == p {
        LexLeTotal(s[i].1.createdAt, e.1.createdAt);
      } else if i == p {
        if j - 1 > p {
          LexLeTransitive(s[j - 1].1.createdAt, s[p].1.createdAt, e.1.createdAt);
        }
      }
    }
  }

  /** Inserting adds exactly `e`, and keeps ids distinct when `e`'s id is new. */
  lemma InsertAddsOne(s: seq<Entry>, e: Entry)
    ensures forall x :: x in Insert(s, e) <==> x == e || x in s
    ensures DistinctIds(s) && e.0 !in Ids(s) ==> DistinctIds(Insert(s, e))
  {
    var p := InsertPosition(s, e);
    var r := Insert(s, e);
    assert r == s[..p] + [e] + s[p..];
    assert s == s[..p] + s[p..];
    if DistinctIds(s) && e.0 !in Ids(s) {
      forall i, j | 0 <= i < j < |r|
        ensures r[i].0 != r[j].0
      {
        InsertAt(s, e, i);
        InsertAt(s, e, j);
        if i == p {
          assert s[j - 1] in s;
        } else if j == p {
          assert s[i] in s;
        }
      }
    }
  }

  /** Distinct ids: as many ids as entries. */
  lemma {:induction false} DistinctIdsCount(s: seq<Entry>)
    requires DistinctIds(s)
    ensures |Ids(s)| == |s|
  {
    if s != [] {
      var t := s[1..];
      DistinctIdsCount(t);
      IdsOfCons(s);
    }
  }

  lemma IdsOfCons(s: seq<Entry>)
    requires s != [] && DistinctIds(s)
    ensures DistinctIds(s[1..])
    ensures Ids(s) == Ids(s[1..]) + {s[0].0} && s[0].0 !in Ids(s[1..])
  {
    var t := s[1..];
    forall x | x in t ensures x.0 != s[0].0 {
      var i :| 0 <= i < |t| && t[i] == x;
      assert s[i + 1] == x;
    }
    forall x | x in s ensures x == s[0] || x in t {
      var i :| 0 <= i < |s| && s[i] == x;
      if i > 0 { assert t[i - 1] == x; }
    }
  }

  /** A query result holds exactly as many records as the filter matches. */
  lemma QueryResultCount(found: seq<Entry>, m: map<Oid, Announcement>, f: Filter)
    requires QueryResult(found, m, f)
    ensures |found| == |MatchingIds(m, f)|
  {
    assert Ids(found) == MatchingIds(m, f);
    DistinctIdsCount(found);
  }

  /** A record stored under `k` shows up, as stored, in a listing of all records. */
  lemma ListedAfterInsert(found: seq<Entry>, m: map<Oid, Announcement>, k: Oid, a: Announcement)
    requires QueryResult(found, m[k := a], All)
    ensures exists i :: 0 <= i < |found| && found[i] == (k, a)
  {
    assert k in Ids(found);
    var x :| x in found && x.0 == k;
    var i :| 0 <= i < |found| && found[i] == x;
  }

  /** The store's scan: every document, kept when the filter matches, inserted in `created_at` order. */
  method Find(m: map<Oid, Announcement>, f: Filter) returns (found: seq<Entry>)
    ensures QueryResult(found, m, f)
  {
    found := [];
    var rest := m.Keys;
    while rest != {}
      invariant rest <= m.Keys
      invariant NewestFirst(found) && DistinctIds(found)
      invariant forall x :: x in found ==> x.0 in m && x.0 !in rest && x.1 == m[x.0] && Matches(f, x.1)
      invariant forall k :: k in m && k !in rest && Matches(f, m[k]) ==> k in Ids(found)
      decreases rest
    {
      var k :| k in rest;
      if Matches(f, m[k]) {
        var e := (k, m[k]);
        InsertKeepsNewestFirst(found, e);
        InsertAddsOne(found, e);
        found := Insert(found, e);
      }
      rest := rest - {k};
    }
  }

  /** `found`, with each `_id` turned into its string form and nothing else changed. */
  predicate RenderedFrom(r: seq<View>, found: seq<Entry>, render: Oid -> string)
  {
    |r| == |found| && forall i :: 0 <= i < |r| ==> r[i] == View(render(found[i].0), found[i].1)
  }

  // ---------------------------------------------------------------------------
  // Date validation

  /**
    The expiration check as it is written: `expiration_dt <= datetime.utcnow()`
    compares the parsed value with a NAIVE datetime, and Python raises
    TypeError when one side is aware; `except ValueError` does not catch it.
   */
  datatype Verdict = Accepted | Rejected(error: Error) | RaisedTypeError

  function ExpiryCheckAsWritten(parsed: Option<DateTime>, nowUtc: int): (v: Verdict)
  {
    match parsed
    case None => Rejected(InvalidExpirationFormat)
    case Some(d) =>
      if d.utcOffset.Some? then RaisedTypeError
      else if d.wall <= nowUtc then Rejected(ExpirationNotFuture)
      else Accepted
  }

  /** Every expiration date carrying an offset, "Z" included, makes the as-written check raise. */
  lemma AwareExpiryRaises(d: DateTime, nowUtc: int)
    requires d.utcOffset.Some?
    ensures ExpiryCheckAsWritten(Some(d), nowUtc) == RaisedTypeError
  {
  }

  /**
    The "Z" form of the counterexample: 2099-01-01T00:00:00Z (as seconds) checked
    in November 2023. The date is in the future and the intended check accepts
    it, yet the check as written raises.
   */
  lemma ZuluExpiryRaises()
    ensures UtcInstant(DateTime(4_070_908_800, Some(0))) > 1_700_000_000
    ensures ExpiryCheck(Some(DateTime(4_070_908_800, Some(0))), 1_700_000_000) == Pass
    ensures ExpiryCheckAsWritten(Some(DateTime(4_070_908_800, Some(0))), 1_700_000_000) == RaisedTypeError
  {
  }

  /** The expiration check as intended: the parsed instant, read in UTC, must be after now. */
  function ExpiryCheck(parsed: Option<DateTime>, nowUtc: int): (o: Outcome)
  {
    match parsed
    case None => Fail(InvalidExpirationFormat)
    case Some(d) => if UtcInstant(d) <= nowUtc then Fail(ExpirationNotFuture) else Pass
  }

  function AsVerdict(o: Outcome): (v: Verdict)
  {
    if o.Pass? then Accepted else Rejected(o.error)
  }

  /**
    The corrected check never raises, accepts exactly the instants after now,
    and gives the same answer as the written one wherever that one does not raise.
   */
  lemma ExpiryCheckCorrected(parsed: Option<DateTime>, nowUtc: int)
    ensures AsVerdict(ExpiryCheck(parsed, nowUtc)) != RaisedTypeError
    ensures ExpiryCheck(parsed, nowUtc) == Pass <==> parsed.Some? && UtcInstant(parsed.value) > nowUtc
    ensures ExpiryCheckAsWritten(parsed, nowUtc) != RaisedTypeError ==>
              ExpiryCheckAsWritten(parsed, nowUtc) == AsVerdict(ExpiryCheck(parsed, nowUtc))
  {
  }

  /** Lines 73-85 (and 128-140): expiration format, then future, then start format only. */
  function DateGuard(parse: string -> Option<DateTime>, expiration: string, start: Option<string>, nowUtc: int): (o: Outcome)
  {
    var e := ExpiryCheck(parse(expiration), nowUtc);
    if e.Fail? then e
    else if Given(start) && parse(start.value).None? then Fail(InvalidStartFormat)
    else Pass
  }

  /** Which date error fires, and when: each one exactly under its condition. */
  lemma DateGuardPrecedence(parse: string -> Option<DateTime>, expiration: string, start: Option<string>, nowUtc: int)
    ensures DateGuard(parse, expiration, start, nowUtc) == Fail(InvalidExpirationFormat)
            <==> parse(expiration).None?
    ensures DateGuard(parse, expiration, start, nowUtc) == Fail(ExpirationNotFuture)
            <==> parse(expiration).Some? && UtcInstant(parse(expiration).value) <= nowUtc
    ensures DateGuard(parse, expiration, start, nowUtc) == Fail(InvalidStartFormat)
            <==> parse(expiration).Some? && UtcInstant(parse(expiration).value) > nowUtc
                 && Given(start) && parse(start.value).None?
    ensures DateGuard(parse, expiration, start, nowUtc) == Pass
            <==> parse(expiration).Some? && UtcInstant(parse(expiration).value) > nowUtc
                 && (Given(start) ==> parse(start.value).Some?)
  {
  }

  /** The start date is checked for format only: what instant it names never matters. */
  lemma StartTimeNotChecked(p1: string -> Option<DateTime>, p2: string -> Option<DateTime>,
                            expiration: string, start: Option<string>, nowUtc: int)
    requires p1(expiration) == p2(expiration)
    requires Given(start) ==> (p1(start.value).Some? <==> p2(start.value).Some?)
    ensures DateGuard(p1, expiration, start, nowUtc) == DateGuard(p2, expiration, start, nowUtc)
  {
  }

  // ---------------------------------------------------------------------------
  // The guard chains of the authenticated handlers

  function CreateGuard(authorized: bool, parse: string -> Option<DateTime>,
                       expiration: string, start: Option<string>, nowUtc: int): (o: Outcome)
  {
    if !authorized then Fail(Unauthorized) else DateGuard(parse, expiration, start, nowUtc)
  }

  function UpdateGuard(authorized: bool, id: Option<Oid>, m: map<Oid, Announcement>,
                       parse: string -> Option<DateTime>, expiration: string, start: Option<string>,
                       nowUtc: int): (o: Outcome)
  {
    if !authorized then Fail(Unauthorized)
    else if id.None? then Fail(InvalidId)
    else if id.value !in m then Fail(NotFound)
    else DateGuard(parse, expiration, start, nowUtc)
  }

  function DeleteGuard(authorized: bool, id: Option<Oid>, m: map<Oid, Announcement>): (o: Outcome)
  {
    if !authorized then Fail(Unauthorized)
    else if id.None? then Fail(InvalidId)
    else if id.value !in m then Fail(NotFound)
    else Pass
  }

  /** Without a teacher behind the username every authenticated handler stops with Unauthorized. */
  lemma UnauthorizedFirst(id: Option<Oid>, m: map<Oid, Announcement>, parse: string -> Option<DateTime>,
                          expiration: string, start: Option<string>, nowUtc: int)
    ensures CreateGuard(false, parse, expiration, start, nowUtc) == Fail(Unauthorized)
    ensures UpdateGuard(false, id, m, parse, expiration, start, nowUtc) == Fail(Unauthorized)
    ensures DeleteGuard(false, id, m) == Fail(Unauthorized)
  {
  }

  /** Update: authentication, then a malformed id, then a missing record, then the dates. */
  lemma UpdateGuardPrecedence(authorized: bool, id: Option<Oid>, m: map<Oid, Announcement>,
                              parse: string -> Option<DateTime>, expiration: string,
                              start: Option<string>, nowUtc: int)
    ensures UpdateGuard(authorized, id, m, parse, expiration, start, nowUtc) == Fail(InvalidId)
            <==> authorized && id.None?
    ensures UpdateGuard(authorized, id, m, parse, expiration, start, nowUtc) == Fail(NotFound)
            <==> authorized && id.Some? && id.value !in m
    ensures authorized && id.Some? && id.value in m ==>
              UpdateGuard(authorized, id, m, parse, expiration, start, nowUtc)
              == DateGuard(parse, expiration, start, nowUtc)
  {
  }

  /** Delete: authentication, then a malformed id, then NotFound exactly when no record has the id. */
  lemma DeleteGuardPrecedence(authorized: bool, id: Option<Oid>, m: map<Oid, Announcement>)
    ensures DeleteGuard(authorized, id, m) == Fail(InvalidId) <==> authorized && id.None?
    ensures DeleteGuard(authorized, id, m) == Fail(NotFound) <==> authorized && id.Some? && id.value !in m
    ensures DeleteGuard(authorized, id, m) == Pass <==> authorized && id.Some? && id.value in m
  {
  }

  // ---------------------------------------------------------------------------
  // Records written by the handlers

  /** What update's `$unset`/`$set` leave in a record. */
  function Revised(a: Announcement, message: string, expiration: string, start: Option<string>): (b: Announcement)
  {
    a.(message := message, expirationDate := expiration, startDate := if Given(start) then start else None)
  }

  /** Updating twice with the same inputs is the same as updating once. */
  lemma RevisedIdempotent(a: Announcement, message: string, expiration: string, start: Option<string>)
    ensures Revised(Revised(a, message, expiration, start), message, expiration, start)
            == Revised(a, message, expiration, start)
  {
  }

  /** What every stored record satisfies once written by these handlers. */
  predicate WellFormed(parse: string -> Option<DateTime>, teachers: set<string>, a: Announcement)
  {
    && parse(a.expirationDate).Some?
    && (a.startDate.Some? ==> a.startDate.value != "" && parse(a.startDate.value).Some?)
    && a.createdBy in teachers
  }

  /** A record that passed the date checks is well formed after an update by anyone. */
  lemma RevisedWellFormed(parse: string -> Option<DateTime>, teachers: set<string>, a: Announcement,
                          message: string, expiration: string, start: Option<string>, nowUtc: int)
    requires a.createdBy in teachers
    requires DateGuard(parse, expiration, start, nowUtc) == Pass
    ensures WellFormed(parse, teachers, Revised(a, message, expiration, start))
  {
  }

  /**
    Deleting by the id string a create returned gives back the table from
    before the create, given that `ObjectId(str(oid))` is `oid` again.
   */
  lemma DeleteUndoesCreate(objectId: string -> Option<Oid>, render: Oid -> string,
                           m: map<Oid, Announcement>, k: Oid, a: Announcement)
    requires objectId(render(k)) == Some(k)
    requires k !in m
    ensures DeleteGuard(true, objectId(render(k)), m[k := a]) == Pass
    ensures m[k := a] - {objectId(render(k)).value} == m
  {
  }
}
