# Image captioning and chat demo: caption extraction and message quota

A Dafny model of the two pieces of its own logic in `app.py` of the
PaLM-Kosmos-Vision Streamlit demo. Everything else in that script is glue
around Streamlit, Replicate and llama_index.

1. **Caption post-processing** (`get_image_caption`). The captioning
   provider's free-text output is split on the blank-line separator
   `"\n\n"` exactly as Python's `str.split('\n\n')` does, and the first
   piece is kept (module `Caption`).
2. **Chat turn and quota.** Each Streamlit rerun is one step of a state
   machine (module `Session`). The state is the `messages` transcript in the
   session state (absent after `clear_chat`), the `message_count` cookie,
   and whether the upload widget holds an image.
   - The cookie is decimal text (module `Counter`). A missing cookie reads
     as 0.
   - A send with the counter at 20 or more shows the limit notice and
     changes nothing.
   - Otherwise the user entry is appended. When an image is present, the
     chat engine is asked and its reply is appended too. The counter goes
     up by one whether or not an image is present (module `Chat`).
   - A chat call that raises leaves the user entry in the transcript, adds
     no reply and leaves the counter as it was.

Modules: `Wrappers` (Option, Result), `Caption`, `Counter`, `Chat`,
`Session`. Remote calls become parameters of each rerun (`Session.Event`):
- The captioning output is an arbitrary string.
- `setupOk` says whether the caption and chat-engine setup at lines 76
  and 80 returned. When an image is present and it did not, the rerun
  ends there, before the transcript is initialised or the input is read.
- `reply` is the chat engine's answer at line 115, or `None` when that
  call raises.

The counter does not wait for a reply: line 125 sits outside the
`if image_file:` block, so a send without an image also uses up one
message. Only a raising chat call skips lines 125-126.
`Chat.SendCountsUserEntries` and `Session.CountMatchesUserEntries` state
the consequence. The counter's rise never exceeds the number of user
entries added. It equals that number when every chat call returned.

`clear_chat` also deletes `st.session_state.image_file`. No line of
`app.py` ever sets that key, because the upload widget's key is
`uploaded_image`. So the deletion changes nothing, and `Session.ClearChat`
leaves the image flag alone.

## Model

| member | source | states |
|---|---|---|
| Caption.FirstSep | app.py:30 | The leftmost index where `"\n\n"` starts, or none exactly when the text has no blank line. |
| Caption.Split | app.py:30 | `str.split('\n\n')`: at least one piece, no piece contains the separator, one piece exactly when the text has none, and joining the pieces with `"\n\n"` gives back the text. No piece but the last ends in a newline, so every cut is at the leftmost separator. |
| Caption.FirstParagraph | app.py:30 | The caption is a prefix of the output, never longer, holds no blank line, is the whole output when it has no blank line, and otherwise ends exactly where the first blank line starts. |
| Caption.FirstParagraphIdempotent | app.py:30 | Extracting the caption from an extracted caption changes nothing. |
| Caption.FirstParagraphBeforeSeparator | app.py:30 | For output `c + "\n\n" + tail`, where `c` has no blank line and does not end in a newline, the caption is `c`. |
| Caption.CaptionDropsCommentary | app.py:30 | The output `"A cat on a sofa.\n\nAdditional detail the user didn't ask for."` gives the caption `"A cat on a sofa."`. |
| Counter.Show | app.py:126 | `str(n)` is a run of decimal digits with no leading zero for non-negative `n`, and `-` followed by such digits for negative `n`. |
| Counter.Parse | app.py:99 | `int(text)` succeeds exactly on an optionally signed run of decimal digits, gives a non-negative value for unsigned digits, and otherwise fails with the text. |
| Counter.ReadCount | app.py:95-99 | A missing cookie reads as 0. A present one reads as `int()` of its text. |
| Counter.DigitsValueShowNat | app.py:126 | The digits written for a non-negative counter have that counter as their decimal value. |
| Counter.ParseShow | app.py:99 | `int(str(n)) == n` for every integer `n`. |
| Counter.ShowNatDigitsValue | app.py:99 | Digits without a leading zero are exactly `str` of their value, so `int()` reads them as the number they write. |
| Counter.ParseLeadingZero | app.py:99 | A leading `0` does not change the value `int()` reads. |
| Counter.ParsePlusSign | app.py:99 | A leading `+` does not change the value `int()` reads. |
| Counter.ParseMinusSign | app.py:99 | A leading `-` negates the value `int()` reads. |
| Counter.ReadWrittenCount | app.py:95-99 | A cookie written with counter `n` reads back as `n` on the next rerun. |
| Chat.InitMessages | app.py:83-84 | A missing transcript starts empty. An existing one is kept as is. |
| Chat.Send | app.py:101-125 | At 20 or more: notice shown, transcript and counter unchanged. Below 20: the old transcript is kept as a prefix and a user entry follows. Without an image, or when the chat call returns, the counter rises by exactly one, and with an image the reply follows the user entry. When the chat call raises, only the user entry is added and the counter is unchanged. |
| Chat.SendCountsUserEntries | app.py:106-125 | In one send, the user entries added equal the counter's rise plus one if the chat call raised. |
| Session.ClearChat | app.py:55-59 | The transcript key is dropped. The cookie and the image flag are untouched. |
| Session.Run | app.py:62-126 | When setup raises with an image present, the rerun keeps the cookie and stops after any clear. Otherwise a transcript exists afterwards, and clear or image change leave it empty. Only a submit can change the cookie. An empty submit, one at the limit, or one on a cookie `int()` rejects leaves transcript and cookie as they were. |
| Session.SubmitBelowLimit | app.py:104-126 | A non-empty submit below the limit, past the setup, appends the user entry. When the send is counted, the reply follows with an image present, the cookie is rewritten as `str` of one more, and it reads back as one more. When the chat call raises, the user entry stays alone and the cookie is unchanged. |
| Session.RunCount | app.py:95-126 | One rerun keeps a readable counter readable. It stays the same or rises by exactly one from below 20. An unreadable cookie is never rewritten. |
| Session.CountMonotoneBounded | app.py:102-126 | Over any sequence of reruns the counter never decreases and never exceeds the larger of its start and 20. From at most 20 it stays at most 20. |
| Session.BadCookieSticks | app.py:95-99 | A cookie that `int()` rejects stays as it is through any sequence of reruns. |
| Session.RunAppends | app.py:106-118 | A rerun that neither clears nor changes the image keeps the old transcript as a prefix of the new one, even when a remote call raises. |
| Session.RunCountsUserEntries | app.py:106-126 | In one rerun that keeps the chat, the user entries added exceed the counter's rise by at most one, and by none when the chat call returned. |
| Session.TranscriptAppendOnly | app.py:83-118 | Between clears, the transcript before any sequence of sends is a prefix of the transcript after it. |
| Session.CountMatchesUserEntries | app.py:106-125 | Between clears, the counter rises by at most the number of user entries added, and by exactly that number when every chat call returned. |
| Session.NewImageKeepsCount | app.py:62-70 | Upload, send one message, upload again: the transcript is empty and the counter stays at 1. |

## Left out

- Streamlit rendering, widgets and reruns are abstracted. Each rerun is one `Session.Event`, and `st.session_state` is the `Client` record.
- The Replicate Kosmos-2 call is remote inference. Its output is an arbitrary string argument of `Caption.FirstParagraph`. Whether it raises is the `setupOk` flag.
- PaLM, `ServiceContext`, `VectorStoreIndex`, `ChatMemoryBuffer` and `chat_engine.chat` are foreign library calls. The reply is an opaque parameter, `None` when the call raises. The 1500-token memory trimming inside the library is not modelled.
- `@st.cache_data` / `@st.cache_resource` memoisation is framework caching and is not modelled.
- `CookieManager` I/O and the 30-day expiry at line 126 are left out. Only the text value of the cookie is kept, as a string the script reads back.
- Counter.Parse: models Python's `int()` on an optional sign and ASCII digits only. The surrounding whitespace, digit-group underscores and non-ASCII digits that `int()` also accepts are left out, because the app only ever writes `str(n)`.
- Session.Run: a raising call ends the rerun; the state left behind is modelled and the traceback display is not. Such calls are the setup at lines 76/80, `int()` at line 99 and the chat call at line 115.
- Loading secrets into environment variables (lines 131-132) is configuration I/O and is not modelled.
- The system prompt text (lines 44-48) is not modelled. Only its first literal is an f-string, so `{img_desc}` in the last literal is never interpolated and the prompt carries no image description. The caption reaches the engine only through the indexed document at line 38.
