/**
 * Keyset pagination of a session's messages: list_session_messages of
 * packages/domain/services/session_queries.py. A table is one database snapshot.
 */
module MessagePages {
  import opened Results

  datatype Message = Message(id: string, session: string, createdAt: int, content: string)

  type Table = seq<Message>

  datatype PageError = SessionNotFound | CursorNotFound

  datatype Page = Page(messages: seq<Message>, nextCursor: Option<string>)

  // ---- The order (created_at, id) ------------------------------------------------------------------

  predicate LexLess(a: string, b: string) {
    if b == "" then false
    else if a == "" then true
    else if a[0] != b[0] then a[0] < b[0]
    else LexLess(a[1..], b[1..])
  }

  predicate Before(a: Message, b: Message) {
    a.createdAt < b.createdAt || (a.createdAt == b.createdAt && LexLess(a.id, b.id))
  }

  lemma {:induction false} LexIsTransitive(a: string, b: string, c: string)
    requires LexLess(a, b) && LexLess(b, c)
    ensures LexLess(a, c)
  {
    if a != "" && a[0] == b[0] && b[0] == c[0] {
      LexIsTransitive(a[1..], b[1..], c[1..]);
    }
  }

  lemma {:induction false} LexIsTotal(a: string, b: string)
    ensures LexLess(a, b) || LexLess(b, a) || a == b
    ensures !(LexLess(a, b) && LexLess(b, a)) && !LexLess(a, a)
  {
    if a != "" {
      LexIsTotal(a[1..], a[1..]);
      if b != "" && a[0] == b[0] {
        LexIsTotal(a[1..], b[1..]);
        assert a == [a[0]] + a[1..] && b == [b[0]] + b[1..];
      }
    }
  }

  lemma BeforeIsTransitive(a: Message, b: Message, c: Message)
    requires Before(a, b) && Before(b, c)
    ensures Before(a, c)
  {
    hide LexLess;
    if a.createdAt == b.createdAt == c.createdAt {
      LexIsTransitive(a.id, b.id, c.id);
    }
  }

  lemma BeforeIsTotal(a: Message, b: Message)
    ensures a.id != b.id ==> Before(a, b) || Before(b, a)
    ensures !(Before(a, b) && Before(b, a)) && !Before(a, a)
  {
    hide LexLess;
    LexIsTotal(a.id, b.id);
    LexIsTotal(a.id, a.id);
  }

  // ---- The query -------------------------------------------------------------------------------------

  /** The rows of the session, before the row at the cursor if there is one. */
  predicate Matches(m: Message, session: string, bound: Option<Message>) {
    m.session == session && (bound.Some? ==> Before(m, bound.value))
  }

  /** Newest first. */
  predicate Descending(s: seq<Message>) {
    forall i, j :: 0 <= i < j < |s| ==> Before(s[j], s[i])
  }

  function Insert(s: seq<Message>, m: Message): (r: seq<Message>)
    ensures forall x :: x in r <==> x in s || x == m
  {
    if s == [] then [m]
    else if Before(s[0], m) then [m] + s
    else [s[0]] + Insert(s[1..], m)
  }

  /** WHERE and ORDER BY created_at DESC, id DESC. */
  function SelectDesc(t: Table, session: string, bound: Option<Message>): (r: seq<Message>)
    ensures forall m :: m in r <==> m in t && Matches(m, session, bound)
  {
    if t == [] then []
    else
      var rest := SelectDesc(t[1..], session, bound);
      assert t == [t[0]] + t[1..];
      if Matches(t[0], session, bound) then Insert(rest, t[0]) else rest
  }

  function Reversed(s: seq<Message>): (r: seq<Message>)
    ensures |r| == |s| && forall i :: 0 <= i < |s| ==> r[i] == s[|s| - 1 - i]
  {
    seq(|s|, i requires 0 <= i < |s| => s[|s| - 1 - i])
  }

  /** The first row of the session with the given id. */
  function Find(t: Table, session: string, id: string): (r: Option<Message>)
    ensures r.Some? ==> r.value in t && r.value.session == session && r.value.id == id
    ensures r.None? ==> forall m :: m in t ==> !(m.session == session && m.id == id)
  {
    if t == [] then None
    else if t[0].session == session && t[0].id == id then Some(t[0])
    else Find(t[1..], session, id)
  }

  /** A cursor that is absent or empty starts at the newest message. */
  predicate NoCursor(cursor: Option<string>) {
    cursor.None? || cursor.value == ""
  }

  function PageFrom(t: Table, session: string, limit: nat, bound: Option<Message>): Page
    requires limit >= 1
  {
    var desc := SelectDesc(t, session, bound);
    var rowsDesc := if |desc| > limit + 1 then desc[..limit + 1] else desc;
    var hasMore := |rowsDesc| > limit;
    var rows := Reversed(if hasMore then rowsDesc[..limit] else rowsDesc);
    Page(rows, if hasMore && rows != [] then Some(rows[0].id) else None)
  }

  /** list_session_messages */
  function ListSessionMessages(sessions: set<string>, t: Table, session: string, limit: nat, cursor: Option<string>)
    : Result<Page, PageError>
    requires limit >= 1
  {
    if session !in sessions then Failure(SessionNotFound)
    else if NoCursor(cursor) then Success(PageFrom(t, session, limit, None))
    else
      var found := Find(t, session, cursor.value);
      if found.None? then Failure(CursorNotFound) else Success(PageFrom(t, session, limit, found))
  }

  // ---- What a page is --------------------------------------------------------------------------------

  /** The primary key, which make_id never leaves empty. */
  predicate Keyed(t: Table) {
    && (forall i, j :: 0 <= i < j < |t| ==> t[i].id != t[j].id)
    && (forall i :: 0 <= i < |t| ==> t[i].id != "")
  }

  predicate Ascending(s: seq<Message>) {
    forall i, j :: 0 <= i < j < |s| ==> Before(s[i], s[j])
  }

  /** The session's messages before the bound, oldest first; determined by its members and its order. */
  ghost predicate IsHistory(h: seq<Message>, t: Table, session: string, bound: Option<Message>) {
    Ascending(h) && forall m :: m in h <==> m in t && Matches(m, session, bound)
  }

  lemma {:induction false} InsertKeepsOrder(s: seq<Message>, m: Message)
    requires Descending(s) && forall i :: 0 <= i < |s| ==> s[i].id != m.id
    ensures Descending(Insert(s, m))
  {
    if s != [] {
      BeforeIsTotal(s[0], m);
      hide Before;
      if Before(s[0], m) {
        var r := [m] + s;
        forall i | 0 <= i < |s|
          ensures Before(s[i], m)
        {
          if i > 0 {
            BeforeIsTransitive(s[i], s[0], m);
          }
        }
      } else {
        InsertKeepsOrder(s[1..], m);
        var later := Insert(s[1..], m);
        forall i | 0 <= i < |later|
          ensures Before(later[i], s[0])
        {
          assert later[i] in later;
          assert forall j :: 0 <= j < |s[1..]| ==> s[1..][j] == s[j + 1];
        }
      }
    }
  }

  lemma {:induction false} SelectIsDescending(t: Table, session: string, bound: Option<Message>)
    requires Keyed(t)
    ensures Descending(SelectDesc(t, session, bound))
  {
    if t != [] {
      SelectIsDescending(t[1..], session, bound);
      var rest := SelectDesc(t[1..], session, bound);
      forall i | 0 <= i < |rest|
        ensures rest[i].id != t[0].id
      {
        assert rest[i] in t[1..];
      }
      InsertKeepsOrder(rest, t[0]);
    }
  }

  lemma DropLast(s: seq<Message>)
    requires Ascending(s) && s != []
    ensures Ascending(s[..|s| - 1]) && s == s[..|s| - 1] + [s[|s| - 1]]
    ensures forall m :: m in s[..|s| - 1] <==> m in s && m != s[|s| - 1]
  {
    var init, last := s[..|s| - 1], s[|s| - 1];
    assert s == init + [last];
    forall i | 0 <= i < |init|
      ensures init[i] != last
    {
      assert Before(s[i], s[|s| - 1]);
      BeforeIsTotal(last, last);
    }
  }

  lemma LastIsLast(s: seq<Message>, m: Message)
    requires Ascending(s) && m in s && m != s[|s| - 1]
    ensures Before(m, s[|s| - 1])
  {
    var i :| 0 <= i < |s| && s[i] == m;
  }

  /** Two ascending sequences with the same members are the same. */
  lemma {:induction false} SameMembers(a: seq<Message>, b: seq<Message>)
    requires Ascending(a) && Ascending(b) && forall m :: m in a <==> m in b
    ensures a == b
  {
    assert b != [] ==> b[0] in a;
    if a != [] {
      assert a[0] in b;
      var x, y := a[|a| - 1], b[|b| - 1];
      assert x in b && y in a;
      if x != y {
        LastIsLast(a, y);
        LastIsLast(b, x);
        BeforeIsTotal(x, y);
      }
      hide Before;
      var a', b' := a[..|a| - 1], b[..|b| - 1];
      DropLast(a);
      DropLast(b);
      forall m
        ensures m in a' <==> m in b'
      {
        assert m in a' <==> m in a && m != x;
        assert m in b' <==> m in b && m != y;
      }
      SameMembers(a', b');
    }
  }

  lemma ReversedMembers(s: seq<Message>)
    requires Descending(s)
    ensures Ascending(Reversed(s))
    ensures forall m :: m in Reversed(s) <==> m in s
  {
    hide Before;
    var r := Reversed(s);
    forall m
      ensures m in r <==> m in s
    {
      if m in s {
        var i :| 0 <= i < |s| && s[i] == m;
        assert r[|s| - 1 - i] == m;
      }
    }
  }

  /** The rows the query orders are the history, read backwards. */
  lemma SelectIsHistory(h: seq<Message>, t: Table, session: string, bound: Option<Message>)
    requires Keyed(t) && IsHistory(h, t, session, bound)
    ensures Reversed(SelectDesc(t, session, bound)) == h
  {
    var desc := SelectDesc(t, session, bound);
    SelectIsDescending(t, session, bound);
    ReversedMembers(desc);
    SameMembers(Reversed(desc), h);
  }

  /** How many messages lie before a page that ends at position n. */
  function Rest(n: nat, limit: nat): nat {
    if n > limit then n - limit else 0
  }

  /** A page is the newest `limit` messages of the history before the cursor, oldest first. */
  lemma PageIsSlice(h: seq<Message>, t: Table, session: string, limit: nat, bound: Option<Message>)
    requires limit >= 1 && Keyed(t) && IsHistory(h, t, session, bound)
    ensures PageFrom(t, session, limit, bound)
         == Page(h[Rest(|h|, limit)..], if |h| > limit then Some(h[|h| - limit].id) else None)
  {
    SelectIsHistory(h, t, session, bound);
    hide Before, Matches, SelectDesc;
    var desc := SelectDesc(t, session, bound);
    var shown := if |desc| > limit then desc[..limit] else desc;
    assert h == Reversed(desc);
    assert Reversed(shown) == h[Rest(|h|, limit)..];
  }

  // ---- Following the cursors -------------------------------------------------------------------------

  /**
   * The pages a client gets by following next_cursor, the k-th request seeing
   * the k-th table; it stops at a page without one, or at an error.
   */
  function Follow(sessions: set<string>, tables: seq<Table>, session: string, limit: nat, cursor: Option<string>)
    : seq<Result<Page, PageError>>
    requires limit >= 1
  {
    if tables == [] then []
    else
      var r := ListSessionMessages(sessions, tables[0], session, limit, cursor);
      [r] + if r.Success? && r.value.nextCursor.Some?
            then Follow(sessions, tables[1..], session, limit, r.value.nextCursor)
            else []
  }

  /** The pages put together, the last one first. */
  function Assembled(pages: seq<Result<Page, PageError>>): seq<Message> {
    if pages == [] then []
    else Assembled(pages[1..]) + (if pages[0].Success? then pages[0].value.messages else [])
  }

  /** How many requests a history of n messages takes: an empty history takes one. */
  function Requests(n: nat, limit: nat): (r: nat)
    requires limit >= 1
    ensures r >= 1
  {
    if n <= limit then 1 else 1 + Requests(n - limit, limit)
  }

  /** That is n / limit, rounded up. */
  lemma {:induction false} RequestsIsCeiling(n: nat, limit: nat)
    requires limit >= 1 && n >= 1
    ensures (Requests(n, limit) - 1) * limit < n <= Requests(n, limit) * limit
  {
    if n > limit {
      RequestsIsCeiling(n - limit, limit);
      var r := Requests(n - limit, limit);
      assert (r - 1) * limit + limit == r * limit && r * limit + limit == (r + 1) * limit;
    }
  }

  /** No row is lost, and every new row of the session sorts after the message at the cursor. */
  ghost predicate GrowsAfter(a: Table, b: Table, session: string, at: Message) {
    && (forall m :: m in a ==> m in b)
    && (forall m :: m in b && m !in a && m.session == session ==> Before(at, m))
  }

  /** Between two requests only messages that sort after the cursor of the second one arrive. */
  ghost predicate Steady(h: seq<Message>, tables: seq<Table>, session: string, limit: nat)
    requires limit >= 1
    decreases |tables|
  {
    if |tables| <= 1 || |h| <= limit then true
    else
      && GrowsAfter(tables[0], tables[1], session, h[|h| - limit])
      && Steady(h[..|h| - limit], tables[1..], session, limit)
  }

  /** What lies before the cursor is not touched by what arrives after it. */
  lemma OlderIsKept(h: seq<Message>, k: nat, a: Table, b: Table, session: string, bound: Option<Message>)
    requires k < |h| && IsHistory(h, a, session, bound) && GrowsAfter(a, b, session, h[k])
    ensures IsHistory(h[..k], b, session, Some(h[k])) && h[k] in b && h[k].session == session
  {
    assert h[k] in h;
    var at := h[k];
    assert h == h[..k] + h[k..];
    forall m
      ensures m in h[..k] <==> m in b && Matches(m, session, Some(at))
    {
      BeforeIsTotal(m, at);
      if m in h[..k] {
        var i :| 0 <= i < k && h[i] == m;
        assert m in h && m in a;
      }
      if m in b && Matches(m, session, Some(at)) {
        assert m in a;
        if bound.Some? {
          BeforeIsTransitive(m, at, bound.value);
        }
        var i :| 0 <= i < |h| && h[i] == m;
        if i > k {
          assert Before(h[k], h[i]);
        }
      }
    }
  }

  lemma FoundIsTheRow(t: Table, session: string, m: Message)
    requires Keyed(t) && m in t && m.session == session
    ensures Find(t, session, m.id) == Some(m) && m.id != ""
  {
    var f := Find(t, session, m.id);
    assert f.Some?;
    var i :| 0 <= i < |t| && t[i] == m;
    var j :| 0 <= j < |t| && t[j] == f.value;
  }

  predicate CursorAt(cursor: Option<string>, t: Table, session: string, bound: Option<Message>) {
    if bound.None? then NoCursor(cursor)
    else bound.value in t && bound.value.session == session && cursor == Some(bound.value.id)
  }

  lemma FirstPage(sessions: set<string>, h: seq<Message>, t: Table, session: string, limit: nat,
                  cursor: Option<string>, bound: Option<Message>)
    requires limit >= 1 && session in sessions && Keyed(t)
    requires CursorAt(cursor, t, session, bound) && IsHistory(h, t, session, bound)
    ensures ListSessionMessages(sessions, t, session, limit, cursor)
         == Success(Page(h[Rest(|h|, limit)..], if |h| > limit then Some(h[|h| - limit].id) else None))
  {
    if bound.Some? {
      FoundIsTheRow(t, session, bound.value);
    }
    hide PageFrom, Find;
    PageIsSlice(h, t, session, limit, bound);
  }

  /** From any cursor: the pages put together are the history before it, in the number of requests it takes. */
  lemma {:induction false} FollowFrom(sessions: set<string>, h: seq<Message>, tables: seq<Table>, session: string,
                                      limit: nat, cursor: Option<string>, bound: Option<Message>)
    requires limit >= 1 && session in sessions && |tables| >= Requests(|h|, limit)
    requires forall k :: 0 <= k < |tables| ==> Keyed(tables[k])
    requires tables != [] && CursorAt(cursor, tables[0], session, bound)
    requires IsHistory(h, tables[0], session, bound) && Steady(h, tables, session, limit)
    ensures var pages := Follow(sessions, tables, session, limit, cursor);
            && |pages| == Requests(|h|, limit)
            && (forall k :: 0 <= k < |pages| ==> pages[k].Success?)
            && pages[|pages| - 1].value.nextCursor.None?
            && Assembled(pages) == h
    decreases |tables|
  {
    hide IsHistory, GrowsAfter, Keyed, ListSessionMessages;
    FirstPage(sessions, h, tables[0], session, limit, cursor, bound);
    if |h| > limit {
      var k := |h| - limit;
      OlderIsKept(h, k, tables[0], tables[1], session, bound);
      FollowFrom(sessions, h[..k], tables[1..], session, limit, Some(h[k].id), Some(h[k]));
      FollowOn(sessions, tables, session, limit, cursor, h[k..], h[k].id);
      assert h[..k] + h[k..] == h;
    } else {
      FollowEnds(sessions, tables, session, limit, cursor, h);
    }
  }

  lemma FollowOn(sessions: set<string>, tables: seq<Table>, session: string, limit: nat, cursor: Option<string>,
                 shown: seq<Message>, next: string)
    requires limit >= 1 && tables != []
    requires ListSessionMessages(sessions, tables[0], session, limit, cursor) == Success(Page(shown, Some(next)))
    ensures var later := Follow(sessions, tables[1..], session, limit, Some(next));
            && Follow(sessions, tables, session, limit, cursor) == [Success(Page(shown, Some(next)))] + later
            && Assembled(Follow(sessions, tables, session, limit, cursor)) == Assembled(later) + shown
  {
    hide ListSessionMessages;
    var pages := Follow(sessions, tables, session, limit, cursor);
    assert pages[1..] == Follow(sessions, tables[1..], session, limit, Some(next));
  }

  lemma FollowEnds(sessions: set<string>, tables: seq<Table>, session: string, limit: nat, cursor: Option<string>,
                   shown: seq<Message>)
    requires limit >= 1 && tables != []
    requires ListSessionMessages(sessions, tables[0], session, limit, cursor) == Success(Page(shown, None))
    ensures Follow(sessions, tables, session, limit, cursor) == [Success(Page(shown, None))]
    ensures Assembled(Follow(sessions, tables, session, limit, cursor)) == shown
  {
    hide ListSessionMessages;
    var pages := Follow(sessions, tables, session, limit, cursor);
    assert pages[1..] == [] && Assembled([]) == [];
    assert [] + shown == shown;
  }

  /**
   * Following next_cursor from no cursor until there is none visits every
   * message of the session exactly once, newest page first, in
   * ceil(n / limit) requests, whatever arrives meanwhile after the cursor.
   */
  lemma EveryMessageOnce(sessions: set<string>, h: seq<Message>, tables: seq<Table>, session: string, limit: nat)
    requires limit >= 1 && session in sessions && |tables| >= Requests(|h|, limit)
    requires forall k :: 0 <= k < |tables| ==> Keyed(tables[k])
    requires tables != [] && IsHistory(h, tables[0], session, None) && Steady(h, tables, session, limit)
    ensures var pages := Follow(sessions, tables, session, limit, None);
            && |pages| == Requests(|h|, limit)
            && (forall k :: 0 <= k < |pages| ==> pages[k].Success?)
            && pages[|pages| - 1].value.nextCursor.None?
            && Assembled(pages) == h
  {
    FollowFrom(sessions, h, tables, session, limit, None, None);
  }

  /** Every table has a history to be read, and only one. */
  lemma HistoryExists(t: Table, session: string, bound: Option<Message>)
    requires Keyed(t)
    ensures IsHistory(Reversed(SelectDesc(t, session, bound)), t, session, bound)
    ensures forall h :: IsHistory(h, t, session, bound) ==> h == Reversed(SelectDesc(t, session, bound))
  {
    SelectIsDescending(t, session, bound);
    ReversedMembers(SelectDesc(t, session, bound));
    forall h | IsHistory(h, t, session, bound)
      ensures h == Reversed(SelectDesc(t, session, bound))
    {
      SelectIsHistory(h, t, session, bound);
    }
  }

  /** The request is refused exactly for an unknown session, or a cursor that names no message of the session. */
  lemma RefusedExactly(sessions: set<string>, t: Table, session: string, limit: nat, cursor: Option<string>)
    requires limit >= 1
    ensures ListSessionMessages(sessions, t, session, limit, cursor).Failure?
       <==> session !in sessions
            || (!NoCursor(cursor) && forall m :: m in t && m.session == session ==> m.id != cursor.value)
  {
    if !NoCursor(cursor) {
      var f := Find(t, session, cursor.value);
    }
  }
}
