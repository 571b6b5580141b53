/** The chat REST endpoints of Server/src/controllers/chatController.js:
    direct-chat find-or-create, group creation, participant-gated pagination
    of messages and admin-gated addition of participants. */
module ChatController {
  import opened Common
  import opened ChatModel

  /** The `findOne` filter of `getOrCreateDirectChat`: not a group, both ids
      among the participants (`$all`), exactly two participants (`$size`). */
  predicate DirectBetween(c: Chat, a: UserId, b: UserId)
  {
    !c.isGroupChat && a in c.participants && b in c.participants && |c.participants| == 2
  }

  predicate IsDirect(c: Chat)
  {
    !c.isGroupChat && |c.participants| == 2
  }

  /** Direct chats are unique per unordered pair of participants. */
  predicate DirectUnique(chats: map<ChatId, Chat>)
  {
    forall x, y :: x in chats && y in chats && x != y && IsDirect(chats[x]) && IsDirect(chats[y])
      ==> multiset(chats[x].participants) != multiset(chats[y].participants)
  }

  /** POST /chats/direct: return an existing direct chat between the two
      users (200), or create one with participants exactly [me, other] (201). */
  method GetOrCreateDirectChat(db: Chats, me: UserId, other: UserId, newId: ChatId) returns (r: Reply<ChatId>)
    requires db.Valid() && newId !in db.chats
    modifies db
    ensures db.Valid() && db.nextMessageId == old(db.nextMessageId)
    ensures (exists id :: id in old(db.chats) && DirectBetween(old(db.chats)[id], me, other)) ==>
      && r.Ok? && r.status == 200 && db.chats == old(db.chats)
      && r.data in db.chats && DirectBetween(db.chats[r.data], me, other)
    ensures !(exists id :: id in old(db.chats) && DirectBetween(old(db.chats)[id], me, other)) ==>
      && r == Ok(201, newId)
      && db.chats == old(db.chats)[newId := NewChat([me, other], Some(false), None, None)]
    ensures DirectUnique(old(db.chats)) ==> DirectUnique(db.chats)
  {
    if exists id :: id in db.chats && DirectBetween(db.chats[id], me, other) {
      var id :| id in db.chats && DirectBetween(db.chats[id], me, other);
      return Ok(200, id);
    }
    if DirectUnique(db.chats) {
      CreateKeepsDirectUnique(db.chats, me, other, newId);
    }
    db.chats := db.chats[newId := NewChat([me, other], Some(false), None, None)];
    r := Ok(201, newId);
  }

  /** Creating a direct chat only when none exists for the pair keeps direct
      chats unique per pair. */
  lemma CreateKeepsDirectUnique(chats: map<ChatId, Chat>, me: UserId, other: UserId, newId: ChatId)
    requires DirectUnique(chats) && newId !in chats
    requires forall id :: id in chats ==> !DirectBetween(chats[id], me, other)
    ensures DirectUnique(chats[newId := NewChat([me, other], Some(false), None, None)])
  {
    var c := NewChat([me, other], Some(false), None, None);
    forall x | x in chats && IsDirect(chats[x])
      ensures multiset(chats[x].participants) != multiset(c.participants)
    {
      assert me !in multiset(chats[x].participants) || other !in multiset(chats[x].participants);
      assert me in multiset(c.participants) && other in multiset(c.participants);
    }
  }

  /** POST /chats/group: a missing name or an absent or empty participant
      list is refused with 400 and nothing is stored; otherwise the group is
      stored with the given participants followed by the creator, who is its
      admin. */
  method CreateGroupChat(db: Chats, me: UserId, name: Option<string>, participants: Option<seq<UserId>>,
                         newId: ChatId) returns (r: Reply<ChatId>)
    requires db.Valid() && newId !in db.chats
    modifies db
    ensures db.Valid() && db.nextMessageId == old(db.nextMessageId)
    ensures !Truthy(name) || participants.None? || participants.value == [] ==>
      r == Fail(400, "Group name and participants are required") && db.chats == old(db.chats)
    ensures Truthy(name) && participants.Some? && participants.value != [] ==>
      && r == Ok(201, newId)
      && db.chats == old(db.chats)[newId := NewChat(participants.value + [me], Some(true), name, Some(me))]
  {
    if !Truthy(name) || participants.None? || participants.value == [] {
      return Fail(400, "Group name and participants are required");
    }
    db.chats := db.chats[newId := NewChat(participants.value + [me], Some(true), name, Some(me))];
    r := Ok(201, newId);
  }

  /** `Array.prototype.reverse`. */
  function Reverse<T>(s: seq<T>): (r: seq<T>)
    ensures |r| == |s|
    ensures forall k :: 0 <= k < |s| ==> r[k] == s[|s| - 1 - k]
  {
    if s == [] then [] else Reverse(s[1..]) + [s[0]]
  }

  /** Clamp a `slice` bound the way JavaScript does: negative values count
      from the end, and everything is cut to [0, n]. */
  function SliceBound(x: int, n: nat): (b: nat)
    ensures b <= n
    ensures 0 <= x ==> b == if x < n then x else n
    ensures x < 0 ==> b == if n + x < 0 then 0 else n + x
  {
    if x < 0 then (if n + x < 0 then 0 else n + x) else if x < n then x else n
  }

  /** `Array.prototype.slice(start, end)`. */
  function JsSlice<T>(s: seq<T>, start: int, end: int): (r: seq<T>)
    ensures |r| <= |s|
  {
    var a := SliceBound(start, |s|);
    var b := SliceBound(end, |s|);
    if a < b then s[a..b] else []
  }

  datatype MessagePage = MessagePage(messages: seq<Message>, hasMore: bool)

  const DefaultPage: nat := 1
  const DefaultLimit: nat := 50

  /** `startIndex = (page - 1) * limit`; negative for page 0. */
  function PageStart(page: nat, limit: nat): (start: int)
    ensures page >= 1 ==> start >= 0
  {
    (page - 1) * limit
  }

  /** GET /chats/:id/messages: 404 for an unknown chat, 403 for a requester
      who is not a participant, otherwise the page starting at
      `(page - 1) * limit`, reversed, and whether messages remain after it. */
  function GetChatMessages(chats: map<ChatId, Chat>, id: ChatId, requester: UserId,
                           page: Option<nat>, limit: Option<nat>): (r: Reply<MessagePage>)
    ensures id !in chats ==> r == Fail(404, "Chat not found")
    ensures id in chats && requester !in chats[id].participants ==>
      r == Fail(403, "Not authorized to access this chat")
    ensures id in chats && requester in chats[id].participants ==> r.Ok? && r.status == 200
  {
    if id !in chats then Fail(404, "Chat not found")
    else if requester !in chats[id].participants then Fail(403, "Not authorized to access this chat")
    else
      var p := if page.Some? then page.value else DefaultPage;
      var l := if limit.Some? then limit.value else DefaultLimit;
      var start := PageStart(p, l);
      var ms := chats[id].messages;
      Ok(200, MessagePage(Reverse(JsSlice(ms, start, start + l)), start + l < |ms|))
  }

  /** For page >= 1 the returned messages are the stored messages from index
      `(page - 1) * limit` up to `limit` of them, last one first; `hasMore`
      holds exactly when messages remain beyond that window. */
  lemma PaginationSpec(chats: map<ChatId, Chat>, id: ChatId, requester: UserId, page: nat, limit: nat)
    requires id in chats && requester in chats[id].participants && page >= 1
    ensures var ms := chats[id].messages;
      var start := PageStart(page, limit);
      var lo := if start < |ms| then start else |ms|;
      var hi := if start + limit < |ms| then start + limit else |ms|;
      var r := GetChatMessages(chats, id, requester, Some(page), Some(limit));
      && r.Ok?
      && r.data.messages == Reverse(ms[lo..hi])
      && (r.data.hasMore <==> start + limit < |ms|)
  {
  }

  /** Page 1 of a chat holding at most `limit` messages is the whole history,
      newest first, with nothing more to load. */
  lemma FirstPageIsWholeHistory(chats: map<ChatId, Chat>, id: ChatId, requester: UserId, limit: nat)
    requires id in chats && requester in chats[id].participants && |chats[id].messages| <= limit
    ensures GetChatMessages(chats, id, requester, Some(1), Some(limit))
      == Ok(200, MessagePage(Reverse(chats[id].messages), false))
  {
    var ms := chats[id].messages;
    assert ms[0..|ms|] == ms;
  }

  /** The elements of `s` in order of first occurrence (what
      `[...new Set(s)]` gives for values that compare by value). */
  function Dedup<T(==)>(s: seq<T>): (r: seq<T>)
    ensures forall x :: x in r ==> x in s
    ensures forall x :: x in s ==> x in r
    decreases |s|
  {
    if s == [] then []
    else
      var d := Dedup(s[..|s| - 1]);
      assert s == s[..|s| - 1] + [s[|s| - 1]];
      if s[|s| - 1] in d then d else d + [s[|s| - 1]]
  }

  predicate NoDuplicates<T(==)>(s: seq<T>)
  {
    forall k, l :: 0 <= k < l < |s| ==> s[k] != s[l]
  }

  lemma {:induction false} DedupNoDuplicates<T>(s: seq<T>)
    ensures NoDuplicates(Dedup(s))
    decreases |s|
  {
    if s != [] {
      DedupNoDuplicates(s[..|s| - 1]);
    }
  }

  /** Appending `b` can only add to the end of the de-duplicated list. */
  lemma {:induction false} DedupPrefix<T>(a: seq<T>, b: seq<T>)
    ensures |Dedup(a)| <= |Dedup(a + b)| && Dedup(a + b)[..|Dedup(a)|] == Dedup(a)
    decreases |b|
  {
    if b == [] {
      assert a + b == a;
    } else {
      var b' := b[..|b| - 1];
      DedupPrefix(a, b');
      assert (a + b)[..|a + b| - 1] == a + b';
    }
  }

  /** A list without duplicates is its own de-duplication. */
  lemma {:induction false} DedupOfDistinct<T>(s: seq<T>)
    requires NoDuplicates(s)
    ensures Dedup(s) == s
    decreases |s|
  {
    if s != [] {
      DedupOfDistinct(s[..|s| - 1]);
      assert s[|s| - 1] !in s[..|s| - 1];
      assert s[..|s| - 1] + [s[|s| - 1]] == s;
    }
  }

  /** The intended participant list after `addParticipants`: the duplicate-free
      union, existing participants first, then the new ids in first-occurrence
      order. */
  function UnionParticipants(existing: seq<UserId>, added: seq<UserId>): seq<UserId>
  {
    Dedup(existing + added)
  }

  /** The union keeps every existing participant (and, for a duplicate-free
      list, keeps them first and in order), contains exactly the old and the
      new ids, and has no duplicates. */
  lemma UnionParticipantsSpec(existing: seq<UserId>, added: seq<UserId>)
    ensures forall u :: u in UnionParticipants(existing, added) <==> u in existing || u in added
    ensures NoDuplicates(UnionParticipants(existing, added))
    ensures NoDuplicates(existing) ==>
      |existing| <= |UnionParticipants(existing, added)|
      && UnionParticipants(existing, added)[..|existing|] == existing
  {
    DedupNoDuplicates(existing + added);
    DedupPrefix(existing, added);
    if NoDuplicates(existing) {
      DedupOfDistinct(existing);
    }
  }

  /** The participant list `[...new Set([...chat.participants, ...participants])]`
      actually builds: the stored participants are distinct ObjectId objects,
      which a Set never finds equal to each other or to the new string ids, so
      only repeats among the new ids are dropped. */
  function AsWrittenUnion(existing: seq<UserId>, added: seq<UserId>): seq<UserId>
  {
    existing + Dedup(added)
  }

  /** Re-adding a current member duplicates it in the code as written, while
      the intended union leaves the list unchanged. */
  lemma AsWrittenUnionDuplicates()
    ensures AsWrittenUnion(["a", "b"], ["b"]) == ["a", "b", "b"]
    ensures !NoDuplicates(AsWrittenUnion(["a", "b"], ["b"]))
    ensures UnionParticipants(["a", "b"], ["b"]) == ["a", "b"]
  {
    var b: seq<UserId> := ["b"];
    var ab: seq<UserId> := ["a", "b"];
    var a: seq<UserId> := ["a"];
    var s: seq<UserId> := ["a", "b", "b"];
    assert b[..0] == [];
    assert Dedup(b) == b;
    assert s[..2] == ab;
    assert ab[..1] == a;
    assert a[..0] == [];
    assert Dedup(a) == a;
    assert Dedup(ab) == ab;
    assert ab + b == s;
  }

  /** POST /chats/:id/participants: 404 for an unknown chat, 500 for a chat
      without an admin (`chat.groupAdmin.toString()` throws), 403 unless the
      requester is the admin; in all these cases nothing changes. A body
      without `participants` (None) makes the spread throw (500, no change).
      Otherwise the participants become the union with the new ids. */
  method AddParticipants(db: Chats, id: ChatId, requester: UserId, added: Option<seq<UserId>>)
    returns (r: Reply<ChatId>)
    requires db.Valid()
    modifies db
    ensures db.Valid() && db.nextMessageId == old(db.nextMessageId)
    ensures id !in old(db.chats) ==> r == Fail(404, "Chat not found") && db.chats == old(db.chats)
    ensures id in old(db.chats) && old(db.chats[id]).groupAdmin.None? ==>
      r.Fail? && r.status == 500 && db.chats == old(db.chats)
    ensures id in old(db.chats) && old(db.chats[id]).groupAdmin.Some? && old(db.chats[id]).groupAdmin.value != requester ==>
      r == Fail(403, "Only group admin can add participants") && db.chats == old(db.chats)
    ensures id in old(db.chats) && old(db.chats[id]).groupAdmin == Some(requester) && added.None? ==>
      r.Fail? && r.status == 500 && db.chats == old(db.chats)
    ensures id in old(db.chats) && old(db.chats[id]).groupAdmin == Some(requester) && added.Some? ==>
      && r == Ok(200, id)
      && db.chats == old(db.chats)[id := old(db.chats[id]).(participants :=
           UnionParticipants(old(db.chats[id]).participants, added.value))]
  {
    if id !in db.chats {
      return Fail(404, "Chat not found");
    }
    var chat := db.chats[id];
    if chat.groupAdmin.None? {
      return Fail(500, "Cannot read properties of undefined (reading 'toString')");
    }
    if chat.groupAdmin.value != requester {
      return Fail(403, "Only group admin can add participants");
    }
    if added.None? {
      return Fail(500, "participants is not iterable");
    }
    db.chats := db.chats[id := chat.(participants := UnionParticipants(chat.participants, added.value))];
    r := Ok(200, id);
  }
}
