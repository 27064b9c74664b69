/** The state of the chat page and the handlers that change it. The page's
    five pieces of component state become fields; each handler becomes a
    method. The reply the page schedules with a 1500 ms timer becomes the
    explicit step `Respond`, which takes the oldest entry of the queue of
    scheduled replies. */
module ChatbotPage {
  import opened Text
  import opened Messages

  /** Whether a submission of `input` with `files` staged goes through:
      the text is not blank after trimming, or a file is staged. The same
      condition enables the send button. */
  function Accepts(input: string, files: Option<seq<FileMeta>>): (ok: bool)
    ensures ok <==> !AllWhitespace(input) || files.Some?
  {
    TrimSpec(input);
    !IsBlank(input) || files.Some?
  }

  class ChatSession {
    /** The transcript, oldest first. */
    var messages: seq<Message>
    /** The text box. */
    var input: string
    /** The staged `FileList`, or `undefined`. */
    var files: Option<seq<FileMeta>>
    /** The staged file's name shown above the text box, or `null`. */
    var fileName: Option<string>
    /** Whether the typing indicator is shown. */
    var isTyping: bool
    /** The replies scheduled and not yet delivered, oldest first. Each
        entry is what the scheduled callback will read of `files`: whether
        a file was staged when its submission happened. */
    var pending: seq<bool>

    /** The staged list is never empty and `fileName` is its first file's
        name; the indicator is shown only while a reply is scheduled; and
        the transcript pairs with the queue of scheduled replies. */
    ghost predicate Valid()
      reads this
    {
      (files.Some? ==> |files.value| > 0) &&
      fileName == (if files.Some? then Some(files.value[0].name) else None) &&
      (isTyping ==> pending != []) &&
      Paired(messages, pending)
    }

    /** A freshly mounted page: everything empty. */
    constructor ()
      ensures Valid()
      ensures messages == [] && input == "" && files == None && fileName == None
      ensures !isTyping && pending == []
    {
      messages := [];
      input := "";
      files := None;
      fileName := None;
      isTyping := false;
      pending := [];
    }

    /** The text box's change handler: the box now holds `text`. */
    method InputChange(text: string)
      requires Valid()
      modifies this`input
      ensures Valid()
      ensures input == text
    {
      input := text;
    }

    /** The file picker's change handler. `selected` is the event's file
        list, `None` when the event carries none. A non-empty list replaces
        the staged files; no list, or an empty one, leaves staging alone. */
    method FileChange(selected: Option<seq<FileMeta>>)
      requires Valid()
      modifies this`files, this`fileName
      ensures Valid()
      ensures selected.Some? && |selected.value| > 0 ==>
                files == selected && fileName == Some(selected.value[0].name)
      ensures !(selected.Some? && |selected.value| > 0) ==>
                files == old(files) && fileName == old(fileName)
    {
      if selected.Some? && |selected.value| > 0 {
        files := selected;
        fileName := Some(selected.value[0].name);
      }
    }

    /** Empties the staging slot. It sets both fields outright, so calling
        it again changes nothing. */
    method ClearFile()
      modifies this`files, this`fileName
      ensures files == None && fileName == None
      ensures old(Valid()) ==> Valid()
    {
      files := None;
      fileName := None;
    }

    /** The form's submit handler; `now` is the clock reading that becomes
        the new message's id. A blank text with no staged file changes
        nothing. Otherwise the typed text, untrimmed, is appended as a user
        message carrying the first staged file's metadata, the text box and
        the staging slot are emptied, the indicator is raised, and a reply
        is scheduled that remembers whether a file was staged. */
    method Submit(now: int)
      requires Valid()
      modifies this
      ensures Valid()
      ensures !Accepts(old(input), old(files)) ==>
                messages == old(messages) && input == old(input) &&
                files == old(files) && fileName == old(fileName) &&
                isTyping == old(isTyping) && pending == old(pending)
      ensures Accepts(old(input), old(files)) ==>
                messages == old(messages) + [Message(now, User, old(input), AttachmentsOf(old(files)))] &&
                input == "" && files == None && fileName == None &&
                isTyping && pending == old(pending) + [old(files).Some?]
    {
      if !Accepts(input, files) {
        return;
      }
      var newMessage := Message(now, User, input, AttachmentsOf(files));
      var withFile := files.Some?;
      PairedAfterSubmit(messages, pending, newMessage);
      messages := messages + [newMessage];
      input := "";
      ClearFile();
      isTyping := true;
      pending := pending + [withFile];
    }

    /** The scheduled callback firing for the oldest scheduled reply; `now`
        is the clock reading, and the reply's id is `now + 1`. The indicator
        is lowered even if later replies are still scheduled, and the reply
        mentions a PDF file exactly when one was staged at its submission,
        whatever is staged now. */
    method Respond(now: int)
      requires Valid()
      requires pending != []
      modifies this`messages, this`isTyping, this`pending
      ensures Valid()
      ensures !isTyping
      ensures messages == old(messages) + [Message(now + 1, Assistant, ReplyText(old(pending)[0]), None)]
      ensures pending == old(pending)[1..]
    {
      var withFile := pending[0];
      var aiResponse := Message(now + 1, Assistant, ReplyText(withFile), None);
      ReplyMentionsFileIff(withFile);
      PairedAfterReply(messages, pending, aiResponse);
      isTyping := false;
      messages := messages + [aiResponse];
      pending := pending[1..];
    }
  }
}
