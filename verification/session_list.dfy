/**
 * Listing a professor's sessions, newest first, each with the number of its
 * accepted, refused and archived scans. The handler reads and never writes,
 * so it is a function of the tables.
 */
module SessionList {
  import opened Common
  import opened Store
  import opened Auth

  /** The tables the handler counts rows in. */
  datatype CountedTable = ValidTable | InvalidTable | ArchivedTable

  /** One entry of the answer: every column of the session plus the three counts. */
  datatype SessionSummary = SessionSummary(
    session: Session,
    validScansCount: nat,
    invalidScansCount: nat,
    archivedScansCount: nat)

  /** The answers of `GET /api/sessions/list`. */
  datatype ListResponse =
    | ListAuthFailed(failure: AuthFailure)
    | ListFailed
    | Listed(sessions: seq<SessionSummary>)
  {
    function Status(): nat
    {
      match this
      case ListAuthFailed(_) => 401
      case ListFailed => 500
      case Listed(_) => 200
    }
  }

  /** Descending by start time: what `order('start_ts', { ascending: false })` delivers. */
  ghost predicate NewestFirst(sessions: seq<Session>)
  {
    forall i, j :: 0 <= i < j < |sessions| ==> sessions[i].startTs >= sessions[j].startTs
  }

  /** Every session of a newest-first sequence started no later than its first one. */
  lemma HeadIsNewest(sorted: seq<Session>, x: Session)
    requires NewestFirst(sorted)
    requires x in sorted
    ensures x.startTs <= sorted[0].startTs
  {
    var k :| 0 <= k < |sorted| && sorted[k] == x;
    if k > 0 {
      assert sorted[0].startTs >= sorted[k].startTs;
    }
  }

  /** Place `s` before the first session that started no later than it, keeping the others in order. */
  function InsertNewestFirst(s: Session, sorted: seq<Session>): (r: seq<Session>)
    requires NewestFirst(sorted)
    ensures NewestFirst(r)
    ensures multiset(r) == multiset(sorted) + multiset{s}
  {
    if sorted == [] || s.startTs >= sorted[0].startTs then
      assert forall k :: 0 <= k < |sorted| ==> sorted[0].startTs >= sorted[k].startTs;
      [s] + sorted
    else
      var head := sorted[0];
      var tail := sorted[1..];
      assert sorted == [head] + tail;
      var rest := InsertNewestFirst(s, tail);
      RestNoNewerThanHead(s, sorted, rest);
      [head] + rest
  }

  /** The insertion into the tail holds nothing newer than the head it goes behind. */
  lemma RestNoNewerThanHead(s: Session, sorted: seq<Session>, rest: seq<Session>)
    requires NewestFirst(sorted) && |sorted| > 0 && s.startTs < sorted[0].startTs
    requires NewestFirst(rest)
    requires multiset(rest) == multiset(sorted[1..]) + multiset{s}
    ensures NewestFirst([sorted[0]] + rest)
  {
    forall k | 0 <= k < |rest| ensures rest[k].startTs <= sorted[0].startTs {
      assert rest[k] in multiset(rest);
      if rest[k] != s {
        assert rest[k] in multiset(sorted[1..]);
        assert sorted == [sorted[0]] + sorted[1..];
        HeadIsNewest(sorted, rest[k]);
      }
    }
    var r := [sorted[0]] + rest;
    forall i, j | 0 <= i < j < |r| ensures r[i].startTs >= r[j].startTs {
      if i == 0 {
        assert r[j] == rest[j - 1];
      } else {
        assert r[i] == rest[i - 1] && r[j] == rest[j - 1];
      }
    }
  }

  /** The rows ordered newest first; a stable insertion sort. */
  function NewestFirstOrder(sessions: seq<Session>): (r: seq<Session>)
    ensures NewestFirst(r)
    ensures multiset(r) == multiset(sessions)
  {
    if sessions == [] then []
    else
      assert sessions == [sessions[0]] + sessions[1..];
      InsertNewestFirst(sessions[0], NewestFirstOrder(sessions[1..]))
  }

  /** A `count: 'exact'` query over the rows of one session; a failed query's `null` count becomes 0. */
  function CountOrZero<T(!new)>(rows: seq<T>, belongs: T -> bool, fails: bool): (n: nat)
    ensures fails ==> n == 0
    ensures n <= |rows|
  {
    if fails then 0 else |Filter(rows, belongs)|
  }

  /** The counts attached to one session; the archive is only counted for a session that is no longer active. */
  function Summarize(s: Session, t: Tables, countFails: (CountedTable, string) -> bool): (e: SessionSummary)
    ensures e.session == s
    ensures s.isActive ==> e.archivedScansCount == 0
    ensures !countFails(ValidTable, s.sessionId) ==>
              e.validScansCount == |Filter(t.scansValid, (r: ValidScan) => r.sessionId == s.sessionId)|
    ensures !countFails(InvalidTable, s.sessionId) ==>
              e.invalidScansCount == |Filter(t.scansInvalid, (r: InvalidScan) => r.sessionId == s.sessionId)|
    ensures !s.isActive && !countFails(ArchivedTable, s.sessionId) ==>
              e.archivedScansCount == |Filter(t.archivedScans, (r: ArchivedScan) => r.scan.sessionId == s.sessionId)|
    ensures countFails(ValidTable, s.sessionId) ==> e.validScansCount == 0
    ensures countFails(InvalidTable, s.sessionId) ==> e.invalidScansCount == 0
    ensures countFails(ArchivedTable, s.sessionId) ==> e.archivedScansCount == 0
  {
    var valid := CountOrZero(t.scansValid, (r: ValidScan) => r.sessionId == s.sessionId,
                             countFails(ValidTable, s.sessionId));
    var invalid := CountOrZero(t.scansInvalid, (r: InvalidScan) => r.sessionId == s.sessionId,
                               countFails(InvalidTable, s.sessionId));
    var archived := if s.isActive then 0
                    else CountOrZero(t.archivedScans, (r: ArchivedScan) => r.scan.sessionId == s.sessionId,
                                     countFails(ArchivedTable, s.sessionId));
    SessionSummary(s, valid, invalid, archived)
  }

  /** The professor's own sessions, newest first. */
  function OwnSessions(sessions: seq<Session>, professorId: string): seq<Session>
  {
    NewestFirstOrder(Filter(sessions, (s: Session) => s.professorId == professorId))
  }

  /**
   * `GET /api/sessions/list`. `fetchFails` stands for a failing session
   * query, `countFails` for a count query that returns no count.
   */
  function ListSessions(header: Option<string>, professorOf: map<string, string>, t: Tables,
                        fetchFails: bool, countFails: (CountedTable, string) -> bool): (r: ListResponse)
    ensures r.ListAuthFailed? <==> Authenticate(header, professorOf).Failed?
    ensures r.ListFailed? <==> Authenticate(header, professorOf).Authenticated? && fetchFails
    ensures r.Listed? ==>
              var own := OwnSessions(t.sessions, Authenticate(header, professorOf).professorId);
              |r.sessions| == |own| &&
              forall i :: 0 <= i < |own| ==> r.sessions[i] == Summarize(own[i], t, countFails)
  {
    match Authenticate(header, professorOf)
    case Failed(f) => ListAuthFailed(f)
    case Authenticated(professorId) =>
      if fetchFails then ListFailed
      else
        var own := OwnSessions(t.sessions, professorId);
        Listed(seq(|own|, i requires 0 <= i < |own| => Summarize(own[i], t, countFails)))
  }

  /** The professor's sessions, newest first: exactly the rows naming them, each as often as the table holds it. */
  lemma {:induction false} OwnSessionsExact(sessions: seq<Session>, professorId: string)
    ensures var own := OwnSessions(sessions, professorId);
            NewestFirst(own) &&
            multiset(own) == multiset(Filter(sessions, (s: Session) => s.professorId == professorId)) &&
            (forall x :: x in own <==> x in sessions && x.professorId == professorId)
  {
    var p := (s: Session) => s.professorId == professorId;
    FilterKeepsMatches(sessions, p);
    var mine := Filter(sessions, p);
    var own := OwnSessions(sessions, professorId);
    assert multiset(own) == multiset(mine);
    forall x ensures x in own <==> x in mine {
      assert x in own <==> x in multiset(own);
      assert x in mine <==> x in multiset(mine);
    }
  }

  /** The listing shows only the caller's sessions, and every one of them. */
  lemma {:induction false} ListedIsOwn(header: Option<string>, professorOf: map<string, string>, t: Tables,
                                       fetchFails: bool, countFails: (CountedTable, string) -> bool)
    requires ListSessions(header, professorOf, t, fetchFails, countFails).Listed?
    ensures var entries := ListSessions(header, professorOf, t, fetchFails, countFails).sessions;
            var professorId := Authenticate(header, professorOf).professorId;
            |entries| == |Filter(t.sessions, (s: Session) => s.professorId == professorId)| &&
            (forall i :: 0 <= i < |entries| ==> entries[i].session.professorId == professorId) &&
            (forall s :: s in t.sessions && s.professorId == professorId ==>
               exists i :: 0 <= i < |entries| && entries[i].session == s)
  {
    var entries := ListSessions(header, professorOf, t, fetchFails, countFails).sessions;
    var professorId := Authenticate(header, professorOf).professorId;
    var own := OwnSessions(t.sessions, professorId);
    OwnSessionsExact(t.sessions, professorId);
    assert |own| == |multiset(own)|;
    forall i | 0 <= i < |entries| ensures entries[i].session.professorId == professorId {
      assert entries[i].session == own[i];
    }
    forall s | s in t.sessions && s.professorId == professorId
      ensures exists i :: 0 <= i < |entries| && entries[i].session == s
    {
      var i :| 0 <= i < |own| && own[i] == s;
      assert entries[i].session == s;
    }
  }

  /** The listing is newest first, and an active session shows an archive count of 0. */
  lemma {:induction false} ListedNewestFirst(header: Option<string>, professorOf: map<string, string>, t: Tables,
                                             fetchFails: bool, countFails: (CountedTable, string) -> bool)
    requires ListSessions(header, professorOf, t, fetchFails, countFails).Listed?
    ensures var entries := ListSessions(header, professorOf, t, fetchFails, countFails).sessions;
            (forall i, j :: 0 <= i < j < |entries| ==> entries[i].session.startTs >= entries[j].session.startTs) &&
            (forall i :: 0 <= i < |entries| && entries[i].session.isActive ==> entries[i].archivedScansCount == 0)
  {
    var entries := ListSessions(header, professorOf, t, fetchFails, countFails).sessions;
    var own := OwnSessions(t.sessions, Authenticate(header, professorOf).professorId);
    forall i, j | 0 <= i < j < |entries| ensures entries[i].session.startTs >= entries[j].session.startTs {
      assert entries[i].session == own[i] && entries[j].session == own[j];
    }
  }
}
