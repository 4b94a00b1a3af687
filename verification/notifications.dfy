/** The notification service and the queries of its repository: create, list
    newest first, count unread, mark one or all as read. */
module Notifications {
  import opened Wrappers
  import opened Model
  import Ordering

  /** The ids of the notifications addressed to `user`. */
  function OfUser(db: Db, user: Id): set<Id> {
    set n | n in db.notifications && db.notifications[n].user == user
  }

  /** The ids of `user`'s notifications whose read flag is false. */
  function UnreadOf(db: Db, user: Id): set<Id> {
    set n | n in db.notifications && db.notifications[n].user == user && !db.notifications[n].read
  }

  /** `countUnreadByUserId` / `getUnreadCount`. */
  function UnreadCount(db: Db, user: Id): (c: nat)
    ensures c <= |OfUser(db, user)|
    ensures c == 0 <==> forall n :: n in db.notifications && db.notifications[n].user == user ==> db.notifications[n].read
  {
    SubsetCount(UnreadOf(db, user), OfUser(db, user));
    EmptyCount(UnreadOf(db, user));
    NoneUnread(db, user);
    |UnreadOf(db, user)|
  }

  lemma NoneUnread(db: Db, user: Id)
    ensures UnreadOf(db, user) == {} <==>
      forall n :: n in db.notifications && db.notifications[n].user == user ==> db.notifications[n].read
  {
    if UnreadOf(db, user) != {} {
      var x :| x in UnreadOf(db, user);
    } else {
      forall n | n in db.notifications && db.notifications[n].user == user
        ensures db.notifications[n].read
      {
        assert n !in UnreadOf(db, user);
      }
    }
  }

  lemma {:induction false} SubsetCount(a: set<Id>, b: set<Id>)
    requires a <= b
    ensures |a| <= |b|
    decreases a
  {
    if a != {} {
      var x :| x in a;
      SubsetCount(a - {x}, b - {x});
    }
  }

  lemma EmptyCount(a: set<Id>)
    ensures |a| == 0 <==> a == {}
  {
    if a != {} {
      var x :| x in a;
    }
  }

  /** Every table but the notifications is as it was. */
  predicate SameRecords(a: Db, b: Db) {
    a.users == b.users && a.jobs == b.jobs && a.applications == b.applications && a.interviews == b.interviews
  }

  /** `after` is `before` with exactly one more entry, `id` holding `note`. */
  predicate AddsOne(before: map<Id, Notification>, after: map<Id, Notification>, id: Id, note: Notification) {
    && id !in before
    && after.Keys == before.Keys + {id}
    && after[id] == note
    && (forall n :: n in before ==> after[n] == before[n])
  }

  /** Adding a notification for an existing user keeps every notification
      addressed to an existing user. */
  lemma AddsOneKeepsOwned(users: map<Id, User>, before: map<Id, Notification>, after: map<Id, Notification>, id: Id, note: Notification)
    requires NotificationsOwned(users, before) && AddsOne(before, after, id, note) && note.user in users
    ensures NotificationsOwned(users, after)
  {
    forall n | n in after
      ensures after[n].user in users
    {
      if n != id {
        assert after[n] == before[n];
      }
    }
  }

  /** `createNotification`: 404 for an unknown user, with nothing stored;
      otherwise one new unread notification with that content. */
  function CreateNotification(db: Db, user: Id, content: string, id: Id, now: DateTime): (r: Result<Db, Fault>)
    requires id !in db.notifications
    ensures r.Err? <==> user !in db.users
    ensures r.Err? ==> r.error == ApiError(404, "User not found")
    ensures r.Ok? ==> SameRecords(r.value, db)
    ensures r.Ok? ==> AddsOne(db.notifications, r.value.notifications, id, Notification(user, content, false, now))
  {
    if user !in db.users then Err(ApiError(404, "User not found"))
    else Ok(db.(notifications := db.notifications[id := Notification(user, content, false, now)]))
  }

  /** A created notification adds one to its user's unread count and leaves
      every other user's count alone. */
  lemma CreateNotificationCounts(db: Db, user: Id, content: string, id: Id, now: DateTime, other: Id)
    requires id !in db.notifications && user in db.users
    ensures var db' := CreateNotification(db, user, content, id, now).value;
      && UnreadCount(db', user) == UnreadCount(db, user) + 1
      && (other != user ==> UnreadCount(db', other) == UnreadCount(db, other))
  {
    var note := Notification(user, content, false, now);
    var db' := db.(notifications := db.notifications[id := note]);
    UnreadAfterAdd(db, db', id, note, user);
    UnreadAfterAdd(db, db', id, note, other);
  }

  /** The unread set of `u` after one notification is added. */
  lemma UnreadAfterAdd(db: Db, db': Db, id: Id, note: Notification, u: Id)
    requires id !in db.notifications && db'.notifications == db.notifications[id := note]
    ensures note.user == u && !note.read ==> UnreadOf(db', u) == UnreadOf(db, u) + {id} && |UnreadOf(db', u)| == |UnreadOf(db, u)| + 1
    ensures !(note.user == u && !note.read) ==> UnreadOf(db', u) == UnreadOf(db, u)
  {
  }

  /** Notifying an existing user keeps the store invariant. */
  lemma CreateNotificationValid(db: Db, user: Id, content: string, id: Id, now: DateTime)
    requires id !in db.notifications && Valid(db)
    requires CreateNotification(db, user, content, id, now).Ok?
    ensures Valid(CreateNotification(db, user, content, id, now).value)
  {
  }

  /** `markAsRead`: the bulk update of one row by id. */
  function MarkAsRead(db: Db, id: Id): (r: Db)
    ensures SameRecords(r, db)
    ensures r.notifications.Keys == db.notifications.Keys
    ensures id in db.notifications ==> r.notifications[id] == db.notifications[id].(read := true)
    ensures forall n :: n in db.notifications && n != id ==> r.notifications[n] == db.notifications[n]
  {
    if id in db.notifications
    then db.(notifications := db.notifications[id := db.notifications[id].(read := true)])
    else db
  }

  /** An unknown id changes nothing, and marking twice is marking once. */
  lemma MarkAsReadIdempotent(db: Db, id: Id)
    ensures id !in db.notifications ==> MarkAsRead(db, id) == db
    ensures MarkAsRead(MarkAsRead(db, id), id) == MarkAsRead(db, id)
  {
    var once := MarkAsRead(db, id);
    var twice := MarkAsRead(once, id);
    assert twice.notifications == once.notifications;
  }

  /** Marking a notification read keeps the store invariant and every
      notification's owner. */
  lemma MarkAsReadValid(db: Db, id: Id)
    requires Valid(db)
    ensures Valid(MarkAsRead(db, id))
    ensures forall n :: n in db.notifications ==> MarkAsRead(db, id).notifications[n].user == db.notifications[n].user
  {
  }

  /** Marking one notification read takes one off its owner's unread count
      when it was unread, and changes no other count. */
  lemma MarkAsReadCount(db: Db, id: Id, user: Id)
    ensures var was := id in db.notifications && db.notifications[id].user == user && !db.notifications[id].read;
      UnreadCount(MarkAsRead(db, id), user) == UnreadCount(db, user) - (if was then 1 else 0)
  {
    var db' := MarkAsRead(db, id);
    assert UnreadOf(db', user) == UnreadOf(db, user) - {id};
  }

  /** `markAllAsReadByUserId`: every notification of `user` becomes read. */
  function MarkAllAsRead(db: Db, user: Id): (r: Db)
    ensures SameRecords(r, db)
    ensures r.notifications.Keys == db.notifications.Keys
    ensures forall n :: n in db.notifications && db.notifications[n].user == user ==>
      r.notifications[n] == db.notifications[n].(read := true)
    ensures forall n :: n in db.notifications && db.notifications[n].user != user ==>
      r.notifications[n] == db.notifications[n]
  {
    db.(notifications := map n | n in db.notifications ::
      if db.notifications[n].user == user then db.notifications[n].(read := true) else db.notifications[n])
  }

  /** Afterwards the user has nothing unread, everybody else's count is as it
      was, and doing it again changes nothing. */
  lemma MarkAllAsReadEffect(db: Db, user: Id, other: Id)
    ensures UnreadCount(MarkAllAsRead(db, user), user) == 0
    ensures other != user ==> UnreadCount(MarkAllAsRead(db, user), other) == UnreadCount(db, other)
    ensures MarkAllAsRead(MarkAllAsRead(db, user), user) == MarkAllAsRead(db, user)
  {
    var db' := MarkAllAsRead(db, user);
    if other != user {
      assert UnreadOf(db', other) == UnreadOf(db, other);
    }
    assert MarkAllAsRead(db', user).notifications == db'.notifications;
  }

  /** Marking all of a user's notifications read keeps the store invariant
      and every notification's owner. */
  lemma MarkAllAsReadValid(db: Db, user: Id)
    requires Valid(db)
    ensures Valid(MarkAllAsRead(db, user))
    ensures forall n :: n in db.notifications ==> MarkAllAsRead(db, user).notifications[n].user == db.notifications[n].user
  {
  }

  /** One entry of `getNotifications`. */
  datatype NotificationView = NotificationView(id: Id, content: string, read: bool, createdAt: DateTime)

  /** The order key of `ORDER BY n.createdAt`. */
  function CreatedAt(db: Db): Id -> int {
    n => if n in db.notifications then db.notifications[n].createdAt else 0
  }

  /** `findByUserId(user, limit)`: the user's notifications, newest first, at
      most `limit` of them; none left out is newer than one returned. */
  method FindByUserId(db: Db, user: Id, limit: nat) returns (r: seq<Id>)
    ensures forall n :: n in r ==> n in db.notifications && db.notifications[n].user == user
    ensures Ordering.Distinct(r) && Ordering.Descending(r, CreatedAt(db))
    ensures |r| == if |OfUser(db, user)| <= limit then |OfUser(db, user)| else limit
    ensures forall i, n :: 0 <= i < |r| && n in OfUser(db, user) && n !in r ==>
      db.notifications[n].createdAt <= db.notifications[r[i]].createdAt
  {
    r := Ordering.TopByKey(OfUser(db, user), CreatedAt(db), limit);
  }

  /** `getNotifications`: the rows of `findByUserId` as responses. */
  method GetNotifications(db: Db, user: Id, limit: nat) returns (r: seq<NotificationView>)
    ensures |r| == if |OfUser(db, user)| <= limit then |OfUser(db, user)| else limit
    ensures forall i :: 0 <= i < |r| ==>
      && r[i].id in db.notifications
      && db.notifications[r[i].id].user == user
      && r[i] == NotificationView(r[i].id, db.notifications[r[i].id].content, db.notifications[r[i].id].read, db.notifications[r[i].id].createdAt)
    ensures forall i, j :: 0 <= i < j < |r| ==> r[i].id != r[j].id && r[i].createdAt >= r[j].createdAt
    ensures forall i, n :: 0 <= i < |r| && n in OfUser(db, user) && (forall j :: 0 <= j < |r| ==> r[j].id != n) ==>
      db.notifications[n].createdAt <= r[i].createdAt
  {
    var ids := FindByUserId(db, user, limit);
    r := [];
    for k := 0 to |ids|
      invariant |r| == k
      invariant forall i :: 0 <= i < k ==> r[i].id == ids[i]
      invariant forall i :: 0 <= i < k ==> r[i] == NotificationView(ids[i], db.notifications[ids[i]].content, db.notifications[ids[i]].read, db.notifications[ids[i]].createdAt)
    {
      var n := db.notifications[ids[k]];
      r := r + [NotificationView(ids[k], n.content, n.read, n.createdAt)];
    }
    forall i, n | 0 <= i < |r| && n in OfUser(db, user) && (forall j :: 0 <= j < |r| ==> r[j].id != n)
      ensures db.notifications[n].createdAt <= r[i].createdAt
    {
      assert n !in ids;
    }
  }
}
