/** Notifications (`notification.py`): a user's inbox with its unread count, the read and archive
    marks, the per-status and per-type statistics, and sending one notification to many users. */
module Notifications {
  import opened Wrappers
  import opened Json
  import opened Db
  import opened Sorting

  /** A notification as one recipient sees it. */
  datatype Item = Item(id: string, ntype: SqlText, message: SqlText, timestamp: int, status: string, readAt: Option<int>)

  /** The recipient's notifications, one per `receive` row whose notification exists, in `receive`
      order, optionally restricted to one status. */
  function Inbox(db: Db, rs: seq<Receive>, userId: string, status: Option<string>): (r: seq<Item>)
    ensures |r| <= |rs|
    ensures forall i :: 0 <= i < |r| ==> r[i].id in db.notifications && r[i].status == db.notifications[r[i].id].status
    ensures status.Some? ==> forall i :: 0 <= i < |r| ==> r[i].status == status.value
  {
    if |rs| == 0 then []
    else
      var rest := Inbox(db, rs[1..], userId, status);
      var x := rs[0];
      if x.userId == userId && x.notificationId in db.notifications
        && (status.None? || db.notifications[x.notificationId].status == status.value) then
        var n := db.notifications[x.notificationId];
        [Item(x.notificationId, n.ntype, n.message, n.timestamp, n.status, x.readAt)] + rest
      else rest
  }

  predicate NewerFirst(a: Item, b: Item) { a.timestamp >= b.timestamp }

  predicate IsUnread(x: Item) { x.status == "unread" }

  datatype Listing = Listing(items: seq<Item>, unreadCount: nat)

  const Statuses: set<string> := {"unread", "read", "archived"}

  /** `GET /api/notifications/<user_id>?status=…`: a status other than unread, read or archived
      is refused with 400 before the user lookup (404); an empty status means no filter. */
  function ListNotifications(db: Db, userId: string, status: Option<string>): (r: Result<Listing>)
    ensures status.Some? && status.value != "" && status.value !in Statuses ==> r == Err(BadRequest)
    ensures r.Err? ==> r.status in {BadRequest, NotFound}
    ensures r.Ok? <==> (status.None? || status.value == "" || status.value in Statuses) && userId in db.users
    ensures r.Ok? ==> SortedBy(r.value.items, NewerFirst)
    ensures r.Ok? ==> r.value.unreadCount == Count(r.value.items, IsUnread) <= |r.value.items|
    ensures r.Ok? && status.Some? && status.value != "" ==> forall i :: 0 <= i < |r.value.items| ==> r.value.items[i].status == status.value
    ensures r.Ok? ==> multiset(r.value.items) == multiset(Inbox(db, db.receives, userId, if status.Some? && status.value != "" then status else None))
  {
    if status.Some? && status.value != "" && status.value !in Statuses then Err(BadRequest)
    else if userId !in db.users then Err(NotFound)
    else
      var filter := if status.Some? && status.value != "" then status else None;
      var items := SortBy(Inbox(db, db.receives, userId, filter), NewerFirst);
      SortedStatuses(Inbox(db, db.receives, userId, filter), items, filter);
      Ok(Listing(items, Count(items, IsUnread)))
  }

  lemma SortedStatuses(xs: seq<Item>, ys: seq<Item>, status: Option<string>)
    requires multiset(ys) == multiset(xs)
    requires status.Some? ==> forall i :: 0 <= i < |xs| ==> xs[i].status == status.value
    ensures status.Some? ==> forall i :: 0 <= i < |ys| ==> ys[i].status == status.value
  {
    if status.Some? {
      forall i | 0 <= i < |ys| ensures ys[i].status == status.value {
        assert ys[i] in multiset(xs);
      }
    }
  }

  lemma {:induction false} InboxUnread(db: Db, rs: seq<Receive>, userId: string)
    ensures Count(Inbox(db, rs, userId, None), IsUnread) == |Inbox(db, rs, userId, Some("unread"))|
  {
    if |rs| > 0 {
      InboxUnread(db, rs[1..], userId);
    }
  }

  /** The unread count of the unfiltered inbox is the length of the inbox filtered to "unread". */
  lemma UnreadCountIsUnreadFilter(db: Db, userId: string)
    requires userId in db.users
    ensures ListNotifications(db, userId, None).value.unreadCount == |ListNotifications(db, userId, Some("unread")).value.items|
  {
    var all := Inbox(db, db.receives, userId, None);
    InboxUnread(db, db.receives, userId);
    CountPermutation(all, SortBy(all, NewerFirst), IsUnread);
  }

  // ------------------------------------------------------------------------------------------
  // Read and archive marks

  predicate Received(db: Db, notificationId: string, userId: string) {
    notificationId in db.notifications
    && exists i :: 0 <= i < |db.receives| && db.receives[i].notificationId == notificationId && db.receives[i].userId == userId
  }

  /** `SET read_at = CURRENT_TIMESTAMP WHERE … AND read_at IS NULL` over the receive rows of the
      given notifications and user. */
  function StampRead(rs: seq<Receive>, ids: set<string>, userId: string, now: int): (r: seq<Receive>)
    ensures |r| == |rs|
    ensures forall i :: 0 <= i < |rs| ==> r[i].notificationId == rs[i].notificationId && r[i].userId == rs[i].userId
    ensures forall i :: 0 <= i < |rs| ==>
      r[i].readAt == (if rs[i].notificationId in ids && rs[i].userId == userId && rs[i].readAt.None? then Some(now) else rs[i].readAt)
  {
    if |rs| == 0 then []
    else
      var x := rs[0];
      var y := if x.notificationId in ids && x.userId == userId && x.readAt.None? then x.(readAt := Some(now)) else x;
      [y] + StampRead(rs[1..], ids, userId, now)
  }

  function SetStatus(ns: map<string, Notification>, ids: set<string>, status: string): (r: map<string, Notification>)
    ensures r.Keys == ns.Keys
    ensures forall id :: id in ns ==> r[id] == if id in ids then ns[id].(status := status) else ns[id]
  {
    map id | id in ns :: if id in ids then ns[id].(status := status) else ns[id]
  }

  /** `PUT /api/notifications/<notification_id>/read/<user_id>`. The status lives on the shared
      notification row, so it changes for every recipient; the read time only on this user's
      receive rows, and only where none was recorded. */
  function MarkRead(db: Db, notificationId: string, userId: string, now: int): (r: Result<Db>)
    ensures r.Ok? <==> Received(db, notificationId, userId)
    ensures r.Err? ==> r.status == NotFound
    ensures r.Ok? ==> notificationId in r.value.notifications && r.value.notifications[notificationId].status == "read"
    ensures r.Ok? ==> r.value.notifications == db.notifications[notificationId := db.notifications[notificationId].(status := "read")]
    ensures r.Ok? ==> |r.value.receives| == |db.receives|
    ensures r.Ok? ==> forall i :: 0 <= i < |db.receives| ==>
      r.value.receives[i] == (if db.receives[i].notificationId == notificationId && db.receives[i].userId == userId
                                 && db.receives[i].readAt.None? then db.receives[i].(readAt := Some(now)) else db.receives[i])
    ensures r.Ok? ==> r.value.(notifications := db.notifications, receives := db.receives) == db
  {
    if !Received(db, notificationId, userId) then Err(NotFound)
    else Ok(db.(notifications := SetStatus(db.notifications, {notificationId}, "read"),
                receives := StampRead(db.receives, {notificationId}, userId, now)))
  }

  /** Marking read again later keeps the first read time. */
  lemma MarkReadIdempotent(db: Db, notificationId: string, userId: string, now1: int, now2: int)
    requires MarkRead(db, notificationId, userId, now1).Ok?
    ensures var db1 := MarkRead(db, notificationId, userId, now1).value;
      MarkRead(db1, notificationId, userId, now2) == Ok(db1)
  {
    var db1 := MarkRead(db, notificationId, userId, now1).value;
    assert Received(db1, notificationId, userId) by {
      var i :| 0 <= i < |db.receives| && db.receives[i].notificationId == notificationId && db.receives[i].userId == userId;
      assert db1.receives[i].notificationId == notificationId && db1.receives[i].userId == userId;
    }
    var db2 := MarkRead(db1, notificationId, userId, now2).value;
    assert db2.receives == db1.receives;
    assert db2.notifications == db1.notifications;
  }

  /** `PUT /api/notifications/<notification_id>/archive/<user_id>`. */
  function Archive(db: Db, notificationId: string, userId: string): (r: Result<Db>)
    ensures r.Ok? <==> Received(db, notificationId, userId)
    ensures r.Err? ==> r.status == NotFound
    ensures r.Ok? ==> notificationId in r.value.notifications && r.value.notifications[notificationId].status == "archived"
    ensures r.Ok? ==> r.value == db.(notifications := db.notifications[notificationId := db.notifications[notificationId].(status := "archived")])
    ensures r.Ok? ==> r.value.receives == db.receives
  {
    if !Received(db, notificationId, userId) then Err(NotFound)
    else Ok(db.(notifications := SetStatus(db.notifications, {notificationId}, "archived")))
  }

  /** Archiving an archived notification changes nothing. */
  lemma ArchiveIdempotent(db: Db, notificationId: string, userId: string)
    requires Archive(db, notificationId, userId).Ok?
    ensures var db1 := Archive(db, notificationId, userId).value;
      Archive(db1, notificationId, userId) == Ok(db1)
  {
    var db1 := Archive(db, notificationId, userId).value;
    assert Received(db1, notificationId, userId);
    assert db1.notifications[notificationId := db1.notifications[notificationId].(status := "archived")] == db1.notifications;
  }

  predicate HasId(items: seq<Item>, id: string) {
    exists j :: 0 <= j < |items| && items[j].id == id
  }

  /** A received notification is listed under its own status. */
  lemma {:induction false} InboxHasReceived(db: Db, rs: seq<Receive>, userId: string, notificationId: string)
    requires notificationId in db.notifications
    requires exists i :: 0 <= i < |rs| && rs[i].notificationId == notificationId && rs[i].userId == userId
    ensures HasId(Inbox(db, rs, userId, Some(db.notifications[notificationId].status)), notificationId)
  {
    var st := Some(db.notifications[notificationId].status);
    var x := rs[0];
    if x.notificationId == notificationId && x.userId == userId {
      assert Inbox(db, rs, userId, st)[0].id == notificationId;
    } else {
      var i :| 0 <= i < |rs| && rs[i].notificationId == notificationId && rs[i].userId == userId;
      assert rs[1..][i - 1] == rs[i];
      InboxHasReceived(db, rs[1..], userId, notificationId);
      var rest := Inbox(db, rs[1..], userId, st);
      var j :| 0 <= j < |rest| && rest[j].id == notificationId;
      var all := Inbox(db, rs, userId, st);
      if all == rest {
        assert HasId(all, notificationId);
      } else {
        assert all == [all[0]] + rest;
        assert all[j + 1].id == notificationId;
      }
    }
  }

  /** After archiving, the user's archived listing shows the notification. */
  lemma ArchivedIsListed(db: Db, notificationId: string, userId: string)
    requires Archive(db, notificationId, userId).Ok?
    requires userId in db.users
    ensures var db1 := Archive(db, notificationId, userId).value;
      exists x :: x in ListNotifications(db1, userId, Some("archived")).value.items && x.id == notificationId
  {
    var db1 := Archive(db, notificationId, userId).value;
    assert Received(db1, notificationId, userId);
    InboxHasReceived(db1, db1.receives, userId, notificationId);
    var inbox := Inbox(db1, db1.receives, userId, Some("archived"));
    var j :| 0 <= j < |inbox| && inbox[j].id == notificationId;
    assert inbox[j] in multiset(ListNotifications(db1, userId, Some("archived")).value.items);
  }

  /** The ids of the user's received notifications whose status is "unread". */
  function UnreadIds(db: Db, userId: string): (r: set<string>)
    ensures forall id :: id in r <==> Received(db, id, userId) && db.notifications[id].status == "unread"
  {
    set i | 0 <= i < |db.receives| && db.receives[i].userId == userId && db.receives[i].notificationId in db.notifications
      && db.notifications[db.receives[i].notificationId].status == "unread" :: db.receives[i].notificationId
  }

  /** `PUT /api/notifications/read-all/<user_id>`: with nothing unread, nothing changes. */
  function MarkAllRead(db: Db, userId: string, now: int): (r: Result<Db>)
    ensures r.Ok? <==> userId in db.users
    ensures r.Err? ==> r.status == NotFound
    ensures r.Ok? && UnreadIds(db, userId) == {} ==> r.value == db
    ensures r.Ok? ==> UnreadIds(r.value, userId) == {}
    ensures r.Ok? ==> r.value.notifications.Keys == db.notifications.Keys && |r.value.receives| == |db.receives|
    ensures r.Ok? ==> forall id :: id in db.notifications ==>
      r.value.notifications[id] == (if id in UnreadIds(db, userId) then db.notifications[id].(status := "read") else db.notifications[id])
    ensures r.Ok? ==> forall i :: 0 <= i < |db.receives| ==>
      r.value.receives[i] == (if db.receives[i].notificationId in UnreadIds(db, userId) && db.receives[i].userId == userId
                                 && db.receives[i].readAt.None? then db.receives[i].(readAt := Some(now)) else db.receives[i])
    ensures r.Ok? ==> r.value.(notifications := db.notifications, receives := db.receives) == db
  {
    if userId !in db.users then Err(NotFound)
    else
      var ids := UnreadIds(db, userId);
      if ids == {} then Ok(db)
      else
        var db' := db.(notifications := SetStatus(db.notifications, ids, "read"),
                       receives := StampRead(db.receives, ids, userId, now));
        assert UnreadIds(db', userId) == {} by {
          forall id | id in db'.notifications ensures !(Received(db', id, userId) && db'.notifications[id].status == "unread") {
            if Received(db', id, userId) {
              var i :| 0 <= i < |db'.receives| && db'.receives[i].notificationId == id && db'.receives[i].userId == userId;
              assert db.receives[i].notificationId == id && db.receives[i].userId == userId;
              assert Received(db, id, userId);
            }
          }
        }
        Ok(db')
  }

  /** With a single unread notification, marking everything read is marking that one read. */
  lemma MarkAllReadIsMarkRead(db: Db, userId: string, notificationId: string, now: int)
    requires userId in db.users
    requires UnreadIds(db, userId) == {notificationId}
    ensures MarkAllRead(db, userId, now) == MarkRead(db, notificationId, userId, now)
  {
    assert notificationId in UnreadIds(db, userId);
    var a := MarkAllRead(db, userId, now).value;
    var b := MarkRead(db, notificationId, userId, now).value;
    assert a.notifications == b.notifications;
    assert a.receives == b.receives;
  }

  /** After marking everything read, the inbox filtered to "unread" is empty. */
  lemma MarkAllReadEmptiesUnreadListing(db: Db, userId: string, now: int)
    requires userId in db.users
    ensures var db' := MarkAllRead(db, userId, now).value;
      ListNotifications(db', userId, Some("unread")) == Ok(Listing([], 0))
  {
    var db' := MarkAllRead(db, userId, now).value;
    InboxUnreadEmpty(db', db'.receives, userId);
  }

  lemma {:induction false} InboxUnreadEmpty(db: Db, rs: seq<Receive>, userId: string)
    requires UnreadIds(db, userId) == {}
    requires forall i :: 0 <= i < |rs| ==> rs[i] in db.receives
    ensures Inbox(db, rs, userId, Some("unread")) == []
  {
    if |rs| > 0 {
      var x := rs[0];
      if x.userId == userId && x.notificationId in db.notifications {
        var k :| 0 <= k < |db.receives| && db.receives[k] == x;
        assert Received(db, x.notificationId, userId);
        assert x.notificationId !in UnreadIds(db, userId);
      }
      InboxUnreadEmpty(db, rs[1..], userId);
    }
  }

  // ------------------------------------------------------------------------------------------
  // Statistics

  /** A Python dict in insertion order, as a list of key/count pairs. */
  type Tally<K> = seq<(K, nat)>

  function Total<K>(t: Tally<K>): nat {
    if |t| == 0 then 0 else t[0].1 + Total(t[1..])
  }

  predicate HasKey<K(==)>(t: Tally<K>, k: K) {
    exists i :: 0 <= i < |t| && t[i].0 == k
  }

  /** `d[k] = d.get(k, 0) + n`. */
  function Bump<K(==, !new)>(t: Tally<K>, k: K, n: nat): (r: Tally<K>)
    ensures Total(r) == Total(t) + n
    ensures HasKey(r, k)
    ensures forall j :: HasKey(t, j) ==> HasKey(r, j)
  {
    if |t| == 0 then [(k, n)]
    else if t[0].0 == k then
      assert r0: t[0].0 == k;
      [(k, t[0].1 + n)] + t[1..]
    else
      var rest := Bump(t[1..], k, n);
      assert forall j :: HasKey(t, j) ==> j == t[0].0 || HasKey(t[1..], j) by {
        forall j | HasKey(t, j) ensures j == t[0].0 || HasKey(t[1..], j) {
          var i :| 0 <= i < |t| && t[i].0 == j;
          if i > 0 { assert t[1..][i - 1].0 == j; }
        }
      }
      var r := [t[0]] + rest;
      forall j | HasKey(rest, j) ensures HasKey(r, j) {
        var i :| 0 <= i < |rest| && rest[i].0 == j;
        assert r[i + 1].0 == j;
      }
      assert r[0].0 == t[0].0;
      r
  }

  /** `d.get(k, 0)`: the count of the first entry for `k`, or 0. */
  function Get<K(==)>(t: Tally<K>, k: K): nat {
    if |t| == 0 then 0 else if t[0].0 == k then t[0].1 else Get(t[1..], k)
  }

  /** No key appears twice, as in a dict. */
  predicate KeysDistinct<K(==)>(t: Tally<K>) {
    forall i, j :: 0 <= i < j < |t| ==> t[i].0 != t[j].0
  }

  /** Bumping adds `n` at `k` and nowhere else, adds `k` to the keys and no other key, and keeps
      the keys distinct. */
  lemma {:induction false} BumpLaws<K(!new)>(t: Tally<K>, k: K, n: nat)
    ensures forall j :: Get(Bump(t, k, n), j) == if j == k then Get(t, k) + n else Get(t, j)
    ensures forall j :: HasKey(Bump(t, k, n), j) <==> HasKey(t, j) || j == k
    ensures KeysDistinct(t) ==> KeysDistinct(Bump(t, k, n))
  {
    var r := Bump(t, k, n);
    if |t| == 0 {
    } else if t[0].0 == k {
      assert r[1..] == t[1..];
      forall j | HasKey(r, j) ensures HasKey(t, j) || j == k {
        var i :| 0 <= i < |r| && r[i].0 == j;
        assert t[i].0 == j;
      }
    } else {
      BumpLaws(t[1..], k, n);
      var rest := Bump(t[1..], k, n);
      assert r == [t[0]] + rest && r[1..] == rest;
      forall j | HasKey(r, j) ensures HasKey(t, j) || j == k {
        var i :| 0 <= i < |r| && r[i].0 == j;
        if i > 0 {
          assert rest[i - 1].0 == j;
          if HasKey(t[1..], j) {
            var m :| 0 <= m < |t[1..]| && t[1..][m].0 == j;
            assert t[m + 1].0 == j;
          }
        }
      }
      if KeysDistinct(t) {
        assert KeysDistinct(t[1..]) by {
          forall a, b | 0 <= a < b < |t[1..]| ensures t[1..][a].0 != t[1..][b].0 {
            assert t[1..][a] == t[a + 1] && t[1..][b] == t[b + 1];
          }
        }
        assert !HasKey(t[1..], t[0].0) by {
          forall m | 0 <= m < |t[1..]| ensures t[1..][m].0 != t[0].0 {
            assert t[1..][m] == t[m + 1];
          }
        }
        forall b | 0 < b < |r| ensures r[0].0 != r[b].0 {
          assert rest[b - 1] == r[b];
        }
      }
    }
  }

  datatype Stats = Stats(byStatus: Tally<string>, byType: Tally<SqlText>, mostRecent: Option<Item>)

  function HasStatus(s: string): Item -> bool { (x: Item) => x.status == s }

  function HasType(ty: SqlText): Item -> bool { (x: Item) => x.ntype == ty }

  /** Folds the user's inbox into the two tallies, starting from the three status keys at 0: each
      key's count is the number of items with that status (type), the type tally holds exactly
      the types that occur, and the status tally those and the three defaults. */
  function Tallies(items: seq<Item>): (r: (Tally<string>, Tally<SqlText>))
    ensures Total(r.0) == |items| && Total(r.1) == |items|
    ensures HasKey(r.0, "unread") && HasKey(r.0, "read") && HasKey(r.0, "archived")
    ensures forall s :: Get(r.0, s) == Count(items, HasStatus(s))
    ensures forall ty :: Get(r.1, ty) == Count(items, HasType(ty))
    ensures forall s :: HasKey(r.0, s) <==> s in Statuses || Count(items, HasStatus(s)) > 0
    ensures forall ty :: HasKey(r.1, ty) <==> Count(items, HasType(ty)) > 0
    ensures KeysDistinct(r.0) && KeysDistinct(r.1)
  {
    if |items| == 0 then
      var s: Tally<string> := [("unread", 0), ("read", 0), ("archived", 0)];
      assert s[0].0 == "unread" && s[1].0 == "read" && s[2].0 == "archived";
      assert Total(s) == 0;
      assert forall k :: Get(s, k) == 0 by {
        assert s[1..][1..][1..] == [];
      }
      (s, [])
    else
      var last := items[|items| - 1];
      var pre := items[..|items| - 1];
      var prev := Tallies(pre);
      assert items == pre + [last];
      StatusTallyStep(prev.0, pre, last);
      TypeTallyStep(prev.1, pre, last);
      (Bump(prev.0, last.status, 1), Bump(prev.1, last.ntype, 1))
  }

  lemma StatusTallyStep(t: Tally<string>, pre: seq<Item>, last: Item)
    requires forall s :: Get(t, s) == Count(pre, HasStatus(s))
    requires forall s :: HasKey(t, s) <==> s in Statuses || Count(pre, HasStatus(s)) > 0
    requires KeysDistinct(t)
    ensures forall s :: Get(Bump(t, last.status, 1), s) == Count(pre + [last], HasStatus(s))
    ensures forall s :: HasKey(Bump(t, last.status, 1), s) <==> s in Statuses || Count(pre + [last], HasStatus(s)) > 0
    ensures KeysDistinct(Bump(t, last.status, 1))
  {
    BumpLaws(t, last.status, 1);
    forall s ensures Count(pre + [last], HasStatus(s)) == Count(pre, HasStatus(s)) + (if last.status == s then 1 else 0) {
      CountAppend(pre, [last], HasStatus(s));
    }
  }

  lemma TypeTallyStep(t: Tally<SqlText>, pre: seq<Item>, last: Item)
    requires forall ty :: Get(t, ty) == Count(pre, HasType(ty))
    requires forall ty :: HasKey(t, ty) <==> Count(pre, HasType(ty)) > 0
    requires KeysDistinct(t)
    ensures forall ty :: Get(Bump(t, last.ntype, 1), ty) == Count(pre + [last], HasType(ty))
    ensures forall ty :: HasKey(Bump(t, last.ntype, 1), ty) <==> Count(pre + [last], HasType(ty)) > 0
    ensures KeysDistinct(Bump(t, last.ntype, 1))
  {
    BumpLaws(t, last.ntype, 1);
    forall ty ensures Count(pre + [last], HasType(ty)) == Count(pre, HasType(ty)) + (if last.ntype == ty then 1 else 0) {
      CountAppend(pre, [last], HasType(ty));
    }
  }

  /** The newest item, the first of the inbox ordered newest first. */
  function Newest(items: seq<Item>): (r: Option<Item>)
    ensures r.None? <==> items == []
    ensures r.Some? ==> r.value in items && forall i :: 0 <= i < |items| ==> items[i].timestamp <= r.value.timestamp
  {
    if |items| == 0 then None
    else match Newest(items[1..])
      case None => Some(items[0])
      case Some(x) => if x.timestamp > items[0].timestamp then Some(x) else Some(items[0])
  }

  /** `GET /api/notifications/stats/<user_id>`: the by-status counts always hold unread, read and
      archived, and both tallies add up to the number of notifications the user received. */
  function NotificationStats(db: Db, userId: string): (r: Result<Stats>)
    ensures r.Ok? <==> userId in db.users
    ensures r.Err? ==> r.status == NotFound
    ensures r.Ok? ==> HasKey(r.value.byStatus, "unread") && HasKey(r.value.byStatus, "read") && HasKey(r.value.byStatus, "archived")
    ensures r.Ok? ==> Total(r.value.byStatus) == Total(r.value.byType) == |Inbox(db, db.receives, userId, None)|
    ensures r.Ok? ==> (r.value.mostRecent.None? <==> Inbox(db, db.receives, userId, None) == [])
    ensures r.Ok? ==> var items := Inbox(db, db.receives, userId, None);
      && (forall s :: Get(r.value.byStatus, s) == Count(items, HasStatus(s)))
      && (forall ty :: Get(r.value.byType, ty) == Count(items, HasType(ty)))
      && (forall s :: HasKey(r.value.byStatus, s) <==> s in Statuses || Count(items, HasStatus(s)) > 0)
      && (forall ty :: HasKey(r.value.byType, ty) <==> Count(items, HasType(ty)) > 0)
      && KeysDistinct(r.value.byStatus) && KeysDistinct(r.value.byType)
    ensures r.Ok? && r.value.mostRecent.Some? ==> var items := Inbox(db, db.receives, userId, None);
      r.value.mostRecent.value in items && forall i :: 0 <= i < |items| ==> items[i].timestamp <= r.value.mostRecent.value.timestamp
  {
    if userId !in db.users then Err(NotFound)
    else
      var items := Inbox(db, db.receives, userId, None);
      var t := Tallies(items);
      Ok(Stats(t.0, t.1, Newest(items)))
  }

  /** Counting one status in the whole inbox is listing the inbox filtered to it. */
  lemma {:induction false} InboxStatusCount(db: Db, rs: seq<Receive>, userId: string, s: string)
    ensures Count(Inbox(db, rs, userId, None), HasStatus(s)) == |Inbox(db, rs, userId, Some(s))|
  {
    if |rs| > 0 {
      InboxStatusCount(db, rs[1..], userId, s);
      var rest := Inbox(db, rs[1..], userId, None);
      var all := Inbox(db, rs, userId, None);
      if all != rest {
        assert all == [all[0]] + rest;
        CountCons(all[0], rest, HasStatus(s));
      }
    }
  }

  /** The statistics agree with the listing: each status's count is the number of notifications
      the listing filtered to that status returns. */
  lemma StatsAgreeWithListing(db: Db, userId: string, s: string)
    requires userId in db.users && s in Statuses
    ensures Get(NotificationStats(db, userId).value.byStatus, s) == |ListNotifications(db, userId, Some(s)).value.items|
  {
    InboxStatusCount(db, db.receives, userId, s);
    var items := ListNotifications(db, userId, Some(s)).value.items;
    assert |multiset(items)| == |multiset(Inbox(db, db.receives, userId, Some(s)))|;
  }

  // ------------------------------------------------------------------------------------------
  // Sending

  predicate IsHexUpper(c: char) { '0' <= c <= '9' || 'A' <= c <= 'F' }

  /** The seven upper-cased hex digits taken from a fresh UUID. */
  predicate NotificationDraw(draw: string) {
    |draw| == 7 && forall i :: 0 <= i < 7 ==> IsHexUpper(draw[i])
  }

  /** Every listed id can be spliced into the quoted `IN ('…', …)` list: its Python `str` holds
      no `'` (a quote breaks the statement, a 500). */
  predicate Spliceable(ids: seq<Json>) {
    forall i :: 0 <= i < |ids| ==> PyStr(ids[i]).Some?
  }

  /** The distinct users the `SELECT id FROM "user" WHERE id IN ('…', …)` finds: each listed id
      is matched through its Python `str`, so the number 5 finds user "5". */
  function FoundUsers(db: Db, ids: seq<Json>): set<string> {
    set i | 0 <= i < |ids| && PyStr(ids[i]).Some? && PyStr(ids[i]).value in db.users :: PyStr(ids[i]).value
  }

  /** The recipient a `receive` insert stores for a listed id: psycopg2 sends the value itself,
      so a string is stored as it is and a number or boolean through the text cast; `NULL` or a
      value psycopg2 cannot send makes the insert fail. */
  function Recipient(v: Json): Option<string> {
    match TextColumn(v)
    case Some(SqlString(s)) => Some(s)
    case _ => None
  }

  predicate Insertable(ids: seq<Json>) {
    forall i :: 0 <= i < |ids| ==> Recipient(ids[i]).Some?
  }

  function ReceiveRows(notificationId: string, ids: seq<Json>): (r: seq<Receive>)
    requires Insertable(ids)
    ensures |r| == |ids|
    ensures forall i :: 0 <= i < |ids| ==> r[i] == Receive(notificationId, Recipient(ids[i]).value, None)
  {
    if |ids| == 0 then []
    else [Receive(notificationId, Recipient(ids[0]).value, None)] + ReceiveRows(notificationId, ids[1..])
  }

  datatype Sent = Sent(db: Db, id: string)

  /** `POST /api/notifications/create`: missing keys → 400, `user_ids` empty or not a list → 400,
      an id whose text holds a quote → 500, any listed id that is unknown or repeated → 404; the
      new notification is "N" and a fresh draw, and each listed id gets one receive row. */
  function CreateNotification(db: Db, body: Body, draw: string, now: int): (r: Result<Sent>)
    requires NotificationDraw(draw)
    ensures !("type" in body && "message" in body && "user_ids" in body) ==> r == Err(BadRequest)
    ensures r.Err? ==> r.status in {BadRequest, NotFound, ServerError}
    ensures r.Ok? ==> body["user_ids"].JArr? && |body["user_ids"].items| > 0
    ensures ("type" in body && "message" in body && "user_ids" in body && body["user_ids"].JArr? && |body["user_ids"].items| > 0
             && !Spliceable(body["user_ids"].items)) ==> r == Err(ServerError)
    ensures r.Ok? ==> var ids := body["user_ids"].items;
      Spliceable(ids) && |FoundUsers(db, ids)| == |ids| && Insertable(ids)
      && r.value.id == "N" + draw && r.value.id !in db.notifications
      && r.value.db.receives == db.receives + ReceiveRows(r.value.id, ids)
      && r.value.db.notifications.Keys == db.notifications.Keys + {r.value.id}
      && r.value.db.notifications[r.value.id].status == "unread"
      && Some(r.value.db.notifications[r.value.id].ntype) == TextColumn(body["type"])
      && Some(r.value.db.notifications[r.value.id].message) == TextColumn(body["message"])
    ensures r.Ok? ==> r.value.db.(notifications := db.notifications, receives := db.receives) == db
  {
    if !("type" in body && "message" in body && "user_ids" in body) then Err(BadRequest)
    else if !Truthy(body["user_ids"]) || !body["user_ids"].JArr? then Err(BadRequest)
    else
      var ids := body["user_ids"].items;
      if !Spliceable(ids) then Err(ServerError)
      else if |FoundUsers(db, ids)| != |ids| then Err(NotFound)
      else
        var id := "N" + draw;
        var ntype := TextColumn(body["type"]);
        var entityType := TextColumn(if "entity_type" in body then body["entity_type"] else JNull);
        var entityId := TextColumn(if "entity_id" in body then body["entity_id"] else JNull);
        var message := TextColumn(body["message"]);
        if id in db.notifications then Err(ServerError)
        else if ntype.None? || entityType.None? || entityId.None? || message.None? then Err(ServerError)
        else if !Insertable(ids) then Err(ServerError)
        else
          var n := Notification(id, ntype.value, entityType.value, entityId.value, message.value, now, "unread");
          Ok(Sent(db.(notifications := db.notifications[id := n], receives := db.receives + ReceiveRows(id, ids)), id))
  }

  /** When the send succeeds, the listed ids name distinct existing users, and a string or
      number id gets its receive row under exactly the user it found. */
  lemma SentOncePerUser(db: Db, body: Body, draw: string, now: int)
    requires NotificationDraw(draw)
    requires CreateNotification(db, body, draw, now).Ok?
    ensures var ids := body["user_ids"].items;
      AllKnown(db, ids) && DistinctRenderings(ids)
      && (forall i :: 0 <= i < |ids| && (ids[i].JStr? || ids[i].JNum?) ==> Recipient(ids[i]) == PyStr(ids[i]))
  {
    var ids := body["user_ids"].items;
    FoundUsersBound(db, ids);
    forall i | 0 <= i < |ids| && (ids[i].JStr? || ids[i].JNum?) ensures Recipient(ids[i]) == PyStr(ids[i]) {
      if ids[i].JNum? {
        assert PyStr(ids[i]) == Some(IntToText(ids[i].n));
      }
    }
  }

  /** Every listed id renders to the id of a known user. */
  predicate AllKnown(db: Db, ids: seq<Json>) {
    forall i :: 0 <= i < |ids| ==> PyStr(ids[i]).Some? && PyStr(ids[i]).value in db.users
  }

  /** No two listed ids render to the same text. */
  predicate DistinctRenderings(ids: seq<Json>)
    requires Spliceable(ids)
  {
    forall i, j :: 0 <= i < j < |ids| ==> PyStr(ids[i]).value != PyStr(ids[j]).value
  }

  /** The found set of a list is that of its tail plus the head's user, when it names one. */
  lemma FoundUsersCons(db: Db, ids: seq<Json>)
    requires |ids| > 0
    ensures var hit := PyStr(ids[0]).Some? && PyStr(ids[0]).value in db.users;
      FoundUsers(db, ids) == FoundUsers(db, ids[1..]) + (if hit then {PyStr(ids[0]).value} else {})
  {
    var rest := ids[1..];
    var hit := PyStr(ids[0]).Some? && PyStr(ids[0]).value in db.users;
    forall u | u in FoundUsers(db, ids) ensures u in FoundUsers(db, rest) + (if hit then {PyStr(ids[0]).value} else {}) {
      var i :| 0 <= i < |ids| && PyStr(ids[i]).Some? && PyStr(ids[i]).value in db.users && PyStr(ids[i]).value == u;
      if i > 0 { assert rest[i - 1] == ids[i]; }
    }
    forall u | u in FoundUsers(db, rest) ensures u in FoundUsers(db, ids) {
      var i :| 0 <= i < |rest| && PyStr(rest[i]).Some? && PyStr(rest[i]).value in db.users && PyStr(rest[i]).value == u;
      assert ids[i + 1] == rest[i];
    }
  }

  /** The found set has as many elements as the list exactly when every entry renders, names a
      known user, and renders differently from every other entry. */
  lemma {:induction false} FoundUsersBound(db: Db, ids: seq<Json>)
    ensures |FoundUsers(db, ids)| <= |ids|
    ensures |FoundUsers(db, ids)| == |ids| <==> AllKnown(db, ids) && DistinctRenderings(ids)
  {
    if |ids| > 0 {
      var rest := ids[1..];
      FoundUsersBound(db, rest);
      FoundUsersCons(db, ids);
      var f := FoundUsers(db, ids);
      var g := FoundUsers(db, rest);
      var hit := PyStr(ids[0]).Some? && PyStr(ids[0]).value in db.users;
      if |f| == |ids| {
        assert hit && PyStr(ids[0]).value !in g;
        assert AllKnown(db, rest) && DistinctRenderings(rest);
        forall i, j | 0 <= i < j < |ids| ensures PyStr(ids[i]).value != PyStr(ids[j]).value {
          if i == 0 {
            assert rest[j - 1] == ids[j];
            assert PyStr(ids[j]).value in g;
          } else {
            assert rest[i - 1] == ids[i] && rest[j - 1] == ids[j];
          }
        }
        forall i | 0 <= i < |ids| ensures PyStr(ids[i]).Some? && PyStr(ids[i]).value in db.users {
          if i > 0 { assert rest[i - 1] == ids[i]; }
        }
      }
      if AllKnown(db, ids) && DistinctRenderings(ids) {
        forall i | 0 <= i < |rest| ensures PyStr(rest[i]).Some? && PyStr(rest[i]).value in db.users {
          assert rest[i] == ids[i + 1];
        }
        forall i, j | 0 <= i < j < |rest| ensures PyStr(rest[i]).value != PyStr(rest[j]).value {
          assert rest[i] == ids[i + 1] && rest[j] == ids[j + 1];
        }
        assert PyStr(ids[0]).value !in g by {
          forall k | 0 <= k < |rest| && PyStr(rest[k]).Some? ensures PyStr(rest[k]).value != PyStr(ids[0]).value {
            assert rest[k] == ids[k + 1];
          }
        }
      }
    }
  }
}
