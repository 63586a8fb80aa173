/** The student's notification list: marking one or all notifications read, the "unread" tab and
    the unread counter. */
module NotificationPage {
  import opened Wrappers
  import Db

  /** A notification as the page holds it; `course` is `None` for `null`. */
  datatype Note = Note(
    id: int, noteType: string, title: string, message: string, course: Option<string>,
    time: string, read: bool)

  predicate Unread(n: Note) { !n.read }

  /** `markAsRead(id)`: the notifications with that id become read; nothing else changes. */
  function MarkAsRead(notes: seq<Note>, id: int): (r: seq<Note>)
    ensures |r| == |notes|
    ensures forall i :: 0 <= i < |notes| ==> r[i] == notes[i].(read := r[i].read)
    ensures forall i :: 0 <= i < |notes| ==> (r[i].read <==> notes[i].read || notes[i].id == id)
  {
    seq(|notes|, i requires 0 <= i < |notes| =>
      if notes[i].id == id then notes[i].(read := true) else notes[i])
  }

  /** `markAllAsRead`: every notification becomes read, with nothing else changed. */
  function MarkAllAsRead(notes: seq<Note>): (r: seq<Note>)
    ensures |r| == |notes|
    ensures forall i :: 0 <= i < |notes| ==> r[i] == notes[i].(read := true)
  {
    seq(|notes|, i requires 0 <= i < |notes| => notes[i].(read := true))
  }

  /** `getFilteredNotifications`: the "unread" tab lists the unread notifications in order, and
      "all" or any other tab the whole list. */
  function FilteredNotes(notes: seq<Note>, filter: string): (r: seq<Note>)
    ensures Db.Sublist(r, notes)
    ensures filter == "unread" ==>
              (forall i :: 0 <= i < |r| ==> !r[i].read) && forall n :: n in notes && !n.read ==> n in r
    ensures filter != "unread" ==> r == notes
  {
    if filter == "unread" then
      Db.FilterSublist(notes, Unread);
      Db.Filter(notes, Unread)
    else
      Db.SublistRefl(notes);
      notes
  }

  /** `unreadCount`: the number of notifications not yet read, the length of the "unread" tab. */
  function UnreadCount(notes: seq<Note>): (n: nat)
    ensures n == |FilteredNotes(notes, "unread")|
    ensures n == Db.Count(notes, Unread)
    ensures n == 0 <==> forall i :: 0 <= i < |notes| ==> notes[i].read
  {
    NoUnreadIffAllRead(notes);
    |Db.Filter(notes, Unread)|
  }

  lemma {:induction false} NoUnreadIffAllRead(notes: seq<Note>)
    ensures Db.Count(notes, Unread) == 0 <==> forall i :: 0 <= i < |notes| ==> notes[i].read
  {
    if |notes| > 0 {
      NoUnreadIffAllRead(notes[1..]);
      assert forall i :: 1 <= i < |notes| ==> notes[i] == notes[1..][i - 1];
    }
  }

  /** After "mark all as read" the counter shows 0 and the "unread" tab is empty. */
  lemma MarkAllClearsUnread(notes: seq<Note>)
    ensures UnreadCount(MarkAllAsRead(notes)) == 0
    ensures FilteredNotes(MarkAllAsRead(notes), "unread") == []
  {
  }

  /** Marking read the notifications with an id lowers the counter by the number of unread ones
      with that id. */
  lemma {:induction false} MarkAsReadCount(notes: seq<Note>, id: int)
    ensures UnreadCount(MarkAsRead(notes, id)) == Db.Count(notes, (n: Note) => !n.read && n.id != id)
  {
    if |notes| > 0 {
      MarkAsReadCount(notes[1..], id);
      assert MarkAsRead(notes, id)[1..] == MarkAsRead(notes[1..], id);
    }
  }

  /** Both operations are idempotent. */
  lemma MarkIdempotent(notes: seq<Note>, id: int)
    ensures MarkAsRead(MarkAsRead(notes, id), id) == MarkAsRead(notes, id)
    ensures MarkAllAsRead(MarkAllAsRead(notes)) == MarkAllAsRead(notes)
  {
  }
}
