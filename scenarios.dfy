/** Short runs of the chat page, each ending in what the page shows. */
module Scenarios {
  import opened Text
  import opened Messages
  import opened ChatbotPage

  /** Two messages sent before the first reply arrives: the first reply
      turns the typing indicator off although the second is still due. */
  method IndicatorDropsWhileReplyDue() returns (typing: bool, due: nat, shown: nat)
    ensures !typing && due == 1 && shown == 3
  {
    var page := new ChatSession();
    assert Accepts("hi", None) by { assert !IsWhitespace("hi"[0]); }
    page.InputChange("hi");
    page.Submit(1000);
    page.InputChange("hi");
    page.Submit(1001);
    page.Respond(2500);
    typing, due, shown := page.isTyping, |page.pending|, |page.messages|;
  }

  /** A whitespace-only text sent with a staged PDF: the text is kept as
      typed, the message carries the file's metadata, the slot is emptied
      at once, and the reply still mentions the file. */
  method FileSentWithBlankText() returns (sent: Message, reply: Message, staged: bool)
    ensures sent.role == User && sent.content == "  "
    ensures sent.attachments == Some([FileMeta("report.pdf", "application/pdf")])
    ensures reply.role == Assistant && Contains(reply.content, FileMention)
    ensures !staged
  {
    var page := new ChatSession();
    page.FileChange(Some([FileMeta("report.pdf", "application/pdf"), FileMeta("notes.pdf", "application/pdf")]));
    page.InputChange("  ");
    page.Submit(1000);
    staged := page.files.Some?;
    page.Respond(2500);
    ReplyMentionsFileIff(true);
    sent, reply := page.messages[0], page.messages[1];
  }

  /** Blank text and no staged file: pressing send does nothing. */
  method BlankSubmissionIgnored() returns (shown: nat, typing: bool, text: string)
    ensures shown == 0 && !typing && text == " \t\n"
  {
    var page := new ChatSession();
    page.InputChange(" \t\n");
    page.Submit(1000);
    shown, typing, text := |page.messages|, page.isTyping, page.input;
  }
}
