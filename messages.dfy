/** The values the chat page keeps in its transcript: messages, the file
    metadata a user message carries, the canned reply the page answers with,
    and the invariant that ties each reply to the submission it answers. */
module Messages {
  import opened Text

  datatype Option<T> = None | Some(value: T)

  /** What the page reads of a selected `File`: its name and its MIME type
      (`type` in the DOM). The file's bytes are never read by the page. */
  datatype FileMeta = FileMeta(name: string, mimeType: string)

  datatype Role = User | Assistant

  /** A transcript entry. The source's `id` is the decimal text of a
      `Date.now()` reading; here it is that reading. `attachments` is
      `undefined` or a list of `{name, type}` records. */
  datatype Message = Message(id: int, role: Role, content: string, attachments: Option<seq<FileMeta>>)

  /** The `attachments` field of a user message built from the staged
      `files`: one record for the first staged file, or none when nothing
      is staged. A staged list is never empty, so `files[0]` exists. */
  function AttachmentsOf(files: Option<seq<FileMeta>>): (r: Option<seq<FileMeta>>)
    requires files.Some? ==> |files.value| > 0
    ensures r.Some? <==> files.Some?
    ensures r.Some? ==> |r.value| == 1 && r.value[0] == files.value[0]
  {
    if files.Some? then Some([files.value[0]]) else None
  }

  const ReplyOpening := "I can see your message"
  const FileMention := " and PDF file"
  // Written as three literals so that the verifier can scan each one.
  const ReplyClosing := ". This is a frontend-only demo, " + "so I can't actually process " + "your request yet."

  /** The text of the simulated assistant reply; `withFile` is whether a
      file was staged when the answered message was submitted. */
  function ReplyText(withFile: bool): string {
    ReplyOpening + (if withFile then FileMention else "") + ReplyClosing
  }

  /** The reply mentions a PDF file exactly when a file was staged. */
  lemma ReplyMentionsFileIff(withFile: bool)
    ensures Contains(ReplyText(withFile), FileMention) <==> withFile
  {
    var s := ReplyText(withFile);
    if withFile {
      assert IsAt(s, FileMention, |ReplyOpening|);
    } else {
      ReplyLacksLetterP();
      assert s == ReplyOpening + ReplyClosing;
      AbsentLetterRulesOutMention(s);
    }
  }

  /** Without the mention, the reply has no capital P. */
  lemma ReplyLacksLetterP()
    ensures 'P' !in ReplyOpening + ReplyClosing
  {
    assert 'P' !in ReplyOpening;
    assert 'P' !in ReplyClosing;
  }

  lemma AbsentLetterRulesOutMention(s: string)
    requires 'P' !in s
    ensures !Contains(s, FileMention)
  {
    forall i | 0 <= i <= |s| - |FileMention|
      ensures !IsAt(s, FileMention, i)
    {
      assert s[i + 5] in s;
      assert s[i..i + |FileMention|][5] != FileMention[5];
    }
  }

  predicate HasAttachment(m: Message) {
    m.attachments.Some?
  }

  predicate MentionsFile(m: Message) {
    Contains(m.content, FileMention)
  }

  /** The messages of `ms` whose role is `r`, in transcript order. */
  function OfRole(ms: seq<Message>, r: Role): (out: seq<Message>)
    ensures |out| <= |ms|
    ensures forall i :: 0 <= i < |out| ==> out[i].role == r
  {
    if ms == [] then []
    else
      var last := ms[|ms| - 1];
      OfRole(ms[..|ms| - 1], r) + (if last.role == r then [last] else [])
  }

  lemma OfRoleAppend(ms: seq<Message>, m: Message, r: Role)
    ensures OfRole(ms + [m], r) == OfRole(ms, r) + (if m.role == r then [m] else [])
  {
    assert (ms + [m])[..|ms|] == ms;
  }

  /** Every message is either a user message or a reply. */
  lemma {:induction false} RolesPartition(ms: seq<Message>)
    ensures |OfRole(ms, User)| + |OfRole(ms, Assistant)| == |ms|
  {
    if ms != [] {
      RolesPartition(ms[..|ms| - 1]);
    }
  }

  /** The user messages `users`, the replies `replies` and the queue
      `pending` of replies still to come agree: replies answer user messages
      in order, the k-th reply mentions a PDF file exactly when the k-th user
      message carries an attachment, every user message after the last reply
      has its reply queued, and each queued entry records whether that
      message carried a file. */
  predicate RepliesMatch(users: seq<Message>, replies: seq<Message>, pending: seq<bool>) {
    |users| == |replies| + |pending| &&
    (forall k :: 0 <= k < |replies| ==> (MentionsFile(replies[k]) <==> HasAttachment(users[k]))) &&
    (forall j :: 0 <= j < |pending| ==> (pending[j] <==> HasAttachment(users[|replies| + j])))
  }

  /** The transcript `ms` pairs with the queue `pending`. */
  predicate Paired(ms: seq<Message>, pending: seq<bool>) {
    RepliesMatch(OfRole(ms, User), OfRole(ms, Assistant), pending)
  }

  /** Appending a user message and queueing its reply keeps the pairing. */
  lemma PairedAfterSubmit(ms: seq<Message>, pending: seq<bool>, m: Message)
    requires Paired(ms, pending)
    requires m.role == User
    ensures Paired(ms + [m], pending + [HasAttachment(m)])
  {
    OfRoleAppend(ms, m, User);
    OfRoleAppend(ms, m, Assistant);
    var users, replies := OfRole(ms, User), OfRole(ms, Assistant);
    MatchAfterSubmit(users, replies, pending, m);
    assert OfRole(ms + [m], User) == users + [m];
    assert OfRole(ms + [m], Assistant) == replies;
  }

  lemma MatchAfterSubmit(users: seq<Message>, replies: seq<Message>, pending: seq<bool>, m: Message)
    requires RepliesMatch(users, replies, pending)
    ensures RepliesMatch(users + [m], replies, pending + [HasAttachment(m)])
  {
    var users' := users + [m];
    forall k | 0 <= k < |replies|
      ensures MentionsFile(replies[k]) <==> HasAttachment(users'[k])
    {
      assert users'[k] == users[k];
    }
  }

  /** Appending a reply whose mention of a PDF file matches the oldest
      queued entry, and dequeuing that entry, keeps the pairing. */
  lemma PairedAfterReply(ms: seq<Message>, pending: seq<bool>, a: Message)
    requires Paired(ms, pending)
    requires pending != []
    requires a.role == Assistant && (MentionsFile(a) <==> pending[0])
    ensures Paired(ms + [a], pending[1..])
  {
    OfRoleAppend(ms, a, User);
    OfRoleAppend(ms, a, Assistant);
    var users, replies := OfRole(ms, User), OfRole(ms, Assistant);
    MatchAfterReply(users, replies, pending, a);
    assert OfRole(ms + [a], User) == users;
    assert OfRole(ms + [a], Assistant) == replies + [a];
  }

  lemma MatchAfterReply(users: seq<Message>, replies: seq<Message>, pending: seq<bool>, a: Message)
    requires RepliesMatch(users, replies, pending)
    requires pending != []
    requires MentionsFile(a) <==> pending[0]
    ensures RepliesMatch(users, replies + [a], pending[1..])
  {
    var replies' := replies + [a];
    forall k | 0 <= k < |replies'|
      ensures MentionsFile(replies'[k]) <==> HasAttachment(users[k])
    {
      if k < |replies| {
        assert replies'[k] == replies[k];
      } else {
        assert HasAttachment(users[|replies| + 0]) <==> pending[0];
      }
    }
    var rest := pending[1..];
    forall j | 0 <= j < |rest|
      ensures rest[j] <==> HasAttachment(users[|replies'| + j])
    {
      assert rest[j] == pending[j + 1];
    }
  }

  /** In a paired transcript there are never more replies than user
      messages; the difference is the number of replies still queued. */
  lemma RepliesNeverOutnumberSubmissions(ms: seq<Message>, pending: seq<bool>)
    requires Paired(ms, pending)
    ensures |OfRole(ms, Assistant)| <= |OfRole(ms, User)|
    ensures |OfRole(ms, User)| - |OfRole(ms, Assistant)| == |pending|
  {
  }
}
