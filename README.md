# Chat page session model

A Dafny model of the conversation state behind the `ChatbotPage` component
of a single-page chat front end. That state is the transcript (`messages`),
the text box (`input`), the attachment staging slot (`files` and
`fileName`) and the typing indicator (`isTyping`). Three handlers change it:
the file picker's change handler stages files, `clearFile` empties the slot,
and the form's submit handler validates a turn, appends the user message,
resets the text box and the slot, raises the indicator and schedules a
canned assistant reply 1500 ms later.

The model is a class, `ChatbotPage.ChatSession`, whose fields are those five
pieces of state plus `pending`. `pending` is the FIFO queue of replies that
have been scheduled and not yet delivered. Each entry records whether a file
was staged when its submission happened: the scheduled callback reads
`files` as it was at submit time, not as it is when it fires. The timer
becomes an explicit environment step, `Respond`, which delivers the oldest
scheduled reply. Timers with the same delay fire in the order they were set,
so a FIFO queue fits.

The class invariant `Valid()` says four things:

- a staged file list is never empty;
- `fileName` is the first staged file's name, and `null` exactly when nothing
  is staged;
- the indicator is shown only while some reply is scheduled;
- `Messages.Paired` holds between the transcript and the queue. The k-th reply
  mentions a PDF file exactly when the k-th user message carries an
  attachment. Every user message after the last reply has its reply queued,
  in order. Each queued entry records whether its message carried a file.

Every handler keeps this invariant.

Files:

- `text.dfy`: JavaScript's `trim` and `includes`, with the ECMAScript set of
  whitespace and line-terminator characters.
- `messages.dfy`: messages, file metadata, the canned reply text and the
  pairing invariant with its lemmas.
- `chatbot_page.dfy`: the session class and its handlers.
- `scenarios.dfy`: short client runs that show the behaviour end to end.

The page as written has no streamed reply, no placeholder assistant message,
no `failed` status and no `system` role. It never rejects a submission
because another reply is still due, and never rejects a staged file. The
model follows the code and has none of these. Several replies can be
scheduled at once. Any file list is staged: the PDF
restriction is only the picker's `accept` hint (app/page.tsx:236).

## Model

| member | source | states |
|---|---|---|
| `Text.TrimStartSpec` | app/page.tsx:44 | What `trim` keeps at the front: the longest suffix of the text that does not start with a whitespace character. Every dropped character is whitespace. |
| `Text.TrimEndSpec` | app/page.tsx:44 | What `trim` keeps at the back: the longest prefix of the text that does not end with a whitespace character. Every dropped character is whitespace. |
| `Text.TrimSpec` | app/page.tsx:44 | `input.trim()` is empty exactly when every character of `input` is whitespace. Otherwise it neither starts nor ends with whitespace. |
| `ChatbotPage.Accepts` | app/page.tsx:44 | A submission goes through exactly when the text is not all whitespace or a file is staged; `!input.trim() && !files` is the rejecting guard. |
| `Messages.AttachmentsOf` | app/page.tsx:50 | The user message carries attachments exactly when files are staged, and then exactly one record: the first staged file's name and type. |
| `Messages.ReplyMentionsFileIff` | app/page.tsx:64-67 | The canned reply contains " and PDF file" if and only if a file was staged at the answered submission. |
| `Messages.RolesPartition` | app/page.tsx:10-15 | Every message is a user message or an assistant reply: the two role filters together account for the whole transcript. |
| `Messages.OfRoleAppend` | app/page.tsx:53 | Appending a message to the transcript appends it to the filtered view of its own role and leaves the other role's view unchanged. |
| `Messages.PairedAfterSubmit` | app/page.tsx:46-59 | Appending a user message and queueing a reply that records whether it carries an attachment keeps transcript and queue paired. |
| `Messages.PairedAfterReply` | app/page.tsx:59-69 | Appending a reply whose PDF mention matches the oldest queued entry, and dequeuing that entry, keeps transcript and queue paired. |
| `Messages.RepliesNeverOutnumberSubmissions` | app/page.tsx:53-69 | In a paired state there are never more replies than user messages, and the difference is the number of replies still scheduled. |
| `ChatbotPage.ChatSession.constructor` | app/page.tsx:18-24 | A new page starts with an empty transcript, an empty text box, nothing staged, no indicator and no scheduled reply, and satisfies the invariant. |
| `ChatbotPage.ChatSession.InputChange` | app/page.tsx:222 | Typing sets the text box to the event's value and changes nothing else. |
| `ChatbotPage.ChatSession.FileChange` | app/page.tsx:26-31 | A non-empty file list replaces the staged files and sets `fileName` to the first file's name. A missing or empty list leaves staging unchanged. Nothing else changes. |
| `ChatbotPage.ChatSession.ClearFile` | app/page.tsx:33-39 | Afterwards `files` is undefined and `fileName` is null, whatever they were, so a second call changes nothing. Nothing else changes, and the invariant is kept. |
| `ChatbotPage.ChatSession.Submit` | app/page.tsx:41-71 | A blank text with nothing staged changes nothing. Otherwise exactly one user message is appended, holding the untrimmed text, the clock id and the first staged file's metadata, and all earlier messages stay. The text box is emptied, staging is cleared and the indicator is raised. One more reply is queued, recording whether a file was staged. The invariant is kept. |
| `ChatbotPage.ChatSession.Respond` | app/page.tsx:59-70 | Delivering the oldest scheduled reply lowers the indicator unconditionally. It appends exactly one assistant message whose text mentions a PDF file as the queued entry says, and removes that entry. Text box and staging are untouched, and the invariant is kept. |
| `Scenarios.IndicatorDropsWhileReplyDue` | app/page.tsx:56-60 | After two quick submissions and one delivered reply, the indicator is off although a reply is still scheduled, and three messages are shown. |
| `Scenarios.FileSentWithBlankText` | app/page.tsx:44-69 | Whitespace-only text with a staged PDF is sent verbatim with the file's metadata, and the slot is empty right after sending. The later reply still mentions the file. |
| `Scenarios.BlankSubmissionIgnored` | app/page.tsx:44 | Sending blank text with nothing staged leaves the transcript empty, the indicator off and the text box as typed. |

## Left out

- Rendering is not modelled: the JSX, animations, styling and the static "Recent Chats" sidebar (app/page.tsx:77-253) are presentation only.
- The auto-scroll effect (app/page.tsx:73-75) is not modelled. Neither is the reset of the DOM file input's value (app/page.tsx:36-38). Both are DOM side effects; staging is modelled only as `files` and `fileName`.
- Message ids: `Date.now()` is a parameter (`now`) of `Submit` and `Respond`, and an id is that reading as a number rather than its decimal text. Nothing is claimed about id uniqueness, since two readings can coincide.
- The 1500 ms timer is not modelled; `Respond` delivers scheduled replies in FIFO order instead. Its precondition that some reply is scheduled only says that a callback fires only after it was scheduled.
- Only a file's name and MIME type are modelled. The page never reads a file's contents.
- `app/api/chat/route.ts` is a thin wrapper over an external streaming library, and the page never calls it. Its `hasPDF` value is computed and never used.
- Streaming replies, chunk concatenation, a `failed` status, a `system` role and the `UnsupportedAttachment` and `SubmissionInProgress` rejections are not modelled, because the code implements none of them.
