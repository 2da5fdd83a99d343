# Kuwait IGCSE Portal bot: a Dafny model of the webhook's decision logic

This project models the decision logic of the Telegram bot in `api/webhook.py`. The bot guides a
parent through four steps: their name, the exam board, the grade and the subjects. It then asks
two preferences per subject and finally sends up to four matching tutors from the catalogue. The
model covers five parts:

- **Label normalisation and subject canonicalisation**, in `text.dfy` and `subjects.dfy`.
  - `_norm` collapses whitespace, strips and lowercases.
  - `canonical_subject` scans the `VALID_SUBJECTS` table in order. Its display names come from
    the `nice` overrides and `str.title()`.
  - `CODE_TO_SUBJECT` and `BOARD_CODES` are modelled as well.
  - The load-time loop that adds `_subjects_canon` to every tutor is in `catalog.dfy`.
- **The matcher and ranker**, in `matching.dfy` and `bestmatches.dfy`.
  - `match_teachers` applies the subject filter and scores +50 for the grade and +50 for the
    board.
  - It then sorts stably by score, descending, keeps the positive scores (or all when none is
    positive), and applies Python's `[:limit]` slice.
  - `collect_best_matches` deduplicates by `id` or `name` and stops at `k`.
- **The selection encoding and the callback wire format**, in `selection.dfy` and
  `callbacks.dfy`.
  - `encode_sel` and `decode_sel`.
  - The `B|`, `G|`, `T|`, `D|`, `Q|` and `QN|` button payloads, as built by `kb_board`,
    `kb_grade`, `kb_subjects` and `kb_prefs` and taken apart by the handler's
    `split("|", n)` and `int()`.
  - The subject toggle and reset, and the `QN` validity check.
- **The session table and the duplicate-suppression window**, in `sessions.dfy`: `session`
  and `already_done`.
- **The handler**, in `webhook.dfy`.
  - The functions `Step` and `MessageStep` state what a callback press or a text message does
    to `SESSIONS` and `RECENT_DONE`, and what the bot shows back.
  - The class `Bot` holds both dictionaries as fields and performs each branch in place.
  - `conversation.dfy` proves properties of whole conversations: each button press of the
    guided flow, the coherence of sessions, isolation between chats, and the suppression of a
    repeated final step.

`walink.dfy` adds the number normalisation at the head of `build_wa_link`.

Representation choices:
- A tutor is identified by its catalogue position. The Python lists hold references to the
  catalogue's dictionaries, so positions are what `match_teachers` and `collect_best_matches`
  return.
- `match_teachers` only ever scores 0, 50 or 100. Its stable descending sort is therefore
  modelled as the 100s, then the 50s, then the 0s, each group in catalogue order. The lemmas
  prove that this is a permutation, non-increasing and stable.
- Strings are `seq<char>`. Lowercasing, whitespace and digits are treated as ASCII.
- The clock is a `real` parameter `now`, in place of `time.time()`.

- `canonical_subject` accepts only an exact match after `_norm`: there is no substring or
  word matching and no punctuation stripping.

## Model

| member | source | states |
|---|---|---|
| Text.Norm | api/webhook.py:135-136 | `_norm` yields a normal string: single spaces, no leading or trailing space, no upper case. Its non-space characters are the input's, lowercased. An input that is already well spaced is only lowercased. |
| Text.NormIsPipeline | api/webhook.py:135-136 | The one-pass normaliser equals the literal pipeline: `re.sub(r"\s+", " ", s)`, then `strip()`, then `lower()`. |
| Text.NormIdempotent | api/webhook.py:135-136 | Normalising twice is the same as normalising once. |
| Text.NormalIsFixed | api/webhook.py:135-136 | A string already in normal form is left unchanged. |
| Text.SplitNJoin | api/webhook.py:398 | `split(sep, n)` recovers the parts joined by `sep` when no part but the last contains it. The last part may contain `sep` when it is the `n`-th split. |
| Text.IntRoundTrip | api/webhook.py:398-399 | `int(str(g)) == g` for every integer grade, negative ones included. |
| Subjects.CanonicalSubject | api/webhook.py:138-153 | The result is `None` exactly when no entry's pool (key plus aliases) holds a string that normalises to `_norm(label)`. Otherwise it is the display name of the first such entry in table order. |
| Subjects.FirstMatchUnique | api/webhook.py:140-142 | The first matching entry is unique. |
| Subjects.CanonicalOfKey | api/webhook.py:138-153 | A label that normalises to an entry's key canonicalises to that entry's display name. No earlier entry lists the key as an alias. |
| Subjects.CanonicalOfDisplay | api/webhook.py:143-152 | Every display name (a `nice` override or the key's `title()`) canonicalises to itself. |
| Subjects.CanonicalIdempotent | api/webhook.py:138-153 | Canonicalising a canonical result returns it unchanged. |
| Subjects.CanonicalOfEmpty | api/webhook.py:135-153 | The empty label matches no entry. |
| Subjects.CanonicalNonEmpty | api/webhook.py:138-153 | A canonical name is never empty, so the preprocessing loop's truthiness test `if c:` never drops a match. |
| Subjects.CodeLabelCanonical | api/webhook.py:107-127 | Every label of `CODE_TO_SUBJECT` canonicalises to itself. |
| Catalog.Canons | api/webhook.py:159-160 | The canonical subject of every listed subject, position by position. |
| Catalog.CanonSetMembers | api/webhook.py:156-162 | A name is in `_subjects_canon` exactly when some listed subject canonicalises to it. |
| Catalog.CanonSetIsCanonical | api/webhook.py:156-162 | Every name in `_subjects_canon` canonicalises to itself. |
| Catalog.BuildCanon | api/webhook.py:157-162 | The inner loop's set is the set of canonical names of the tutor's subjects. |
| Catalog.WithCanon | api/webhook.py:158-162 | Preprocessing sets `_subjects_canon` to that set and changes no other field of the tutor. |
| Catalog.Preprocess | api/webhook.py:156-162 | The loop over the catalogue array updates every tutor in place this way. |
| Catalog.PreprocessedIsCanonical | api/webhook.py:156-162 | After preprocessing, every name a tutor carries is canonical. |
| Matching.AnyBoardExists | api/webhook.py:174 | A board hit holds exactly when some listed board normalises equal to the requested one. |
| Matching.Score | api/webhook.py:171-175 | A score is 0, 50 or 100. It is positive exactly when the grade or the board hits. |
| Matching.SliceLength | api/webhook.py:181 | The length `xs[:limit]` keeps, including Python's negative limits, which count from the end. |
| Matching.ScoreAll | api/webhook.py:166-176 | The loop builds `results`: one `(score, position)` pair per tutor the subject filter keeps, in catalogue order. |
| Matching.ResultsComplete | api/webhook.py:168-176 | Every tutor the filter keeps appears in `results` with its score. |
| Matching.UnfilteredResults | api/webhook.py:167-170 | With no wanted subject (none given, or one that does not canonicalise), no tutor is excluded: `results` covers the whole catalogue in order. |
| Matching.RankedPermutes | api/webhook.py:177 | The sorted list is a permutation of `results`. |
| Matching.RankedDescending | api/webhook.py:177 | Scores in the sorted list never increase. |
| Matching.RankedStable | api/webhook.py:177 | Equal scores keep catalogue order, because the sort is stable. |
| Matching.RankedDistinct | api/webhook.py:177 | The sorted list never repeats a catalogue position. |
| Matching.TrimmedShape | api/webhook.py:178-180 | `trimmed` is the 100s then the 50s when any score is positive, and otherwise all of `results`. |
| Matching.MatchTeachers | api/webhook.py:164-181 | The method (filter, score loop, sort, trim, slice) returns `Matches`, the specification the lemmas below describe. |
| Matching.MatchesFromCatalogue | api/webhook.py:166-181 | Every result is a catalogue position that passes the subject filter. No position is repeated. |
| Matching.MatchesFiltered | api/webhook.py:169-170 | With a wanted subject `c`, every result lists `c` among its canonical subjects. |
| Matching.MatchesHaveSubject | api/webhook.py:167-170 | When the subject canonicalises to `c`, every result lists `c`. |
| Matching.MatchesOrdered | api/webhook.py:171-181 | Scores of the results never increase, and equal scores appear in catalogue order. |
| Matching.MatchesLength | api/webhook.py:178-181 | There are exactly as many results as the slice keeps of `trimmed`, and at most `limit` when `limit >= 0`. |
| Matching.MatchesPositiveOnly | api/webhook.py:178-181 | If any eligible tutor scores above 0, only positive-scoring tutors are returned. |
| Matching.MatchesAllZero | api/webhook.py:179-181 | If every eligible tutor scores 0, the result is the first `limit` eligible tutors in catalogue order. |
| Matching.MatchesNonEmpty | api/webhook.py:178-181 | With `limit > 0`, the result is empty only when the subject filter removes everyone. |
| BestMatches.PerSubject | api/webhook.py:185-186 | The per-subject lists are `match_teachers(s, grade, board, limit=3)` for each requested subject in order. |
| BestMatches.StreamMembers | api/webhook.py:185-186 | A tutor is visited exactly when some requested subject's list contains it. |
| BestMatches.Collected | api/webhook.py:183-194 | The result has at most `k` tutors when `k >= 1`. It has at most 1 when `k <= 0`, since the `len(out) >= k` test runs only after an append. |
| BestMatches.CollectBestMatches | api/webhook.py:183-194 | The nested loop with `seen`, `out` and the early return computes `Collected`. |
| BestMatches.Visit | api/webhook.py:186-193 | The inner loop over one subject's list appends exactly the tutors whose key is new. It stops with exactly `k` tutors, a prefix of what finishing the list would give. |
| BestMatches.DedupUnique | api/webhook.py:187-191 | Deduplication by `id or name` never keeps two tutors with the same key. |
| BestMatches.DedupComplete | api/webhook.py:187-191 | Every visited tutor's key is represented in the deduplicated list. |
| BestMatches.DedupPrefixAt | api/webhook.py:187-193 | Every prefix of the deduplicated stream is the list the loop holds after visiting some prefix of the stream. |
| BestMatches.StopsEarly | api/webhook.py:192-193 | Returning early at `k` tutors gives the first `k` of the full deduplicated stream. |
| BestMatches.CollectedUnique | api/webhook.py:183-194 | No two returned tutors share an `id` (or a `name` when the `id` is missing). |
| BestMatches.CollectedFromSubjects | api/webhook.py:185-186 | Every returned tutor comes from `match_teachers(s, grade, board, limit=3)` for some requested `s`. |
| BestMatches.CollectedFirstOfEachKey | api/webhook.py:184-193 | The result lists the first tutor of each key, in the order the subjects and their lists are visited. Below `k`, every visited key is represented. At any size the result is exactly the deduplication of some prefix of the visiting order, so no new key seen before the last pick is skipped. |
| StrOrder.SortedList | api/webhook.py:242 | `sorted(sel)` holds exactly the set's elements, in strictly ascending code-point order. |
| StrOrder.StrictlySortedUnique | api/webhook.py:242 | Two strictly sorted lists with the same elements are equal, so `sorted` of a set is unique. |
| Selection.EncodeSel | api/webhook.py:241-242 | The empty set encodes to `""`. |
| Selection.DecodeSel | api/webhook.py:244-245 | Decoded codes are non-empty and contain no dot. |
| Selection.DecodeSelMembers | api/webhook.py:244-245 | A code is decoded exactly when it is a non-empty dot-separated part. |
| Selection.EncodeSelParts | api/webhook.py:241-242 | The encoding's dot-separated parts are the codes in sorted order. |
| Selection.SelRoundTrip | api/webhook.py:241-245 | `decode_sel(encode_sel(s)) == s` for every set of non-empty dot-free codes. |
| Selection.EncodeSelEmpty | api/webhook.py:241-242 | The encoding is `""` exactly when the set is empty. |
| Selection.EncodeSelInjective | api/webhook.py:241-245 | Different selections encode differently. |
| Selection.SelCodesMembers | api/webhook.py:432 | The D handler's list `[x for x in enc.split(".") if x]` holds the same codes as `decode_sel(enc)`. |
| Selection.SelCodesJoin | api/webhook.py:330 | Splitting the dot-joined remaining codes recovers the list, and the join is empty exactly when the list is. |
| Selection.SelCodesOfEncoding | api/webhook.py:432 | The D handler reads the codes of an encoded selection back in sorted order. |
| Selection.Toggle | api/webhook.py:416-420 | `__RESET__` gives the empty set. Any other code flips its own membership and changes no other code's. |
| Selection.ToggleTwice | api/webhook.py:419-420 | Toggling the same code twice restores the selection. |
| Selection.TogglePlain | api/webhook.py:416-420 | Toggling a plain code keeps the selection plain, so it still encodes faithfully. |
| Selection.GroupCodesOffered | api/webhook.py:77-127 | Every code of `SUBJECT_GROUPS` is non-empty, has no `.` or `\|`, is not `__RESET__`, and is a key of `CODE_TO_SUBJECT`. |
| Selection.ToggleOffered | api/webhook.py:416-420 | Toggling a keyboard code (or resetting) keeps every selected code one that the keyboard offers. |
| Seqs.Rows | api/webhook.py:256-260 | Buttons are laid out in rows of the given width. Only the last row may be shorter, and no row is empty. |
| Seqs.RowsFlatten | api/webhook.py:256-260 | Reading the rows in order gives back the buttons in order. |
| Callbacks.SplitFormat | api/webhook.py:398 | `split("\|", n)` of a payload gives its tag and fields, when no field but the last contains `\|`. |
| Callbacks.DispatchBoard | api/webhook.py:385-386 | A `B\|` payload is handled by the board branch: `split("\|", 1)`. |
| Callbacks.DispatchGrade | api/webhook.py:397-399 | A `G\|` payload is handled by the grade branch: `split("\|", 2)` and `int()`. |
| Callbacks.DispatchToggle | api/webhook.py:412-414 | A `T\|` payload is handled by the toggle branch: `split("\|", 4)` and `int()`. |
| Callbacks.DispatchDone | api/webhook.py:429-431 | A `D\|` payload is handled by the done branch: `split("\|", 3)` and `int()`. |
| Callbacks.DispatchPrefs | api/webhook.py:458-471 | `Q\|` and `QN\|` payloads are handled by the preference branches: `split("\|", 6)` and `int()`. |
| Callbacks.ParseFormatToggle | api/webhook.py:274 | A `T\|code\|board\|grade\|enc` payload parses back to its code, board, grade and encoded selection. |
| Callbacks.ParseFormatDone | api/webhook.py:278 | A `D\|` payload parses back to its board, grade and encoded selection. |
| Callbacks.ParseFormat | api/webhook.py:381-471 | Every button payload whose fields but the last are free of `\|` parses back to the action that built it: `Parse(Format(a)) == Act(a)`. `Format` is the `callback_data` the keyboards build: the tag and the fields joined by `\|`. `Parse` is the handler's prefix dispatch with its `split` and `int()`. |
| Callbacks.FormatInjective | api/webhook.py:247-325 | Different buttons carry different payloads. |
| Callbacks.GradePlain | api/webhook.py:257 | A grade's decimal text never contains `\|`. |
| Callbacks.GradeButtons | api/webhook.py:256-257 | The grade keyboard offers grades 7 to 12 for the chosen board, in order. |
| Callbacks.KbGradeButtons | api/webhook.py:254-262 | Every button of the grade keyboard is a grade from 7 to 12 for the board, or the Back button to that board. Each parses back to itself. |
| Callbacks.ToggleButtons | api/webhook.py:271-275 | One toggle button per code of a section, each carrying the board, the grade and the encoded selection. |
| Callbacks.Sections | api/webhook.py:267-276 | One heading row and its toggle rows per subject group, in group order. |
| Callbacks.SubjectKeyboardShape | api/webhook.py:264-282 | Every button of the subject keyboard is a heading (`noop`), a toggle of a listed code or `__RESET__` for this board, grade and selection, Done, or Back to the grade. |
| Callbacks.SubjectPress | api/webhook.py:264-282 | For a `\|`-free board, every button of the subject keyboard parses back to itself. A toggle carries the current selection, and the toggled selection still holds only offered codes. |
| Callbacks.PrefsPress | api/webhook.py:311-325 | Every preference button parses back to itself. A Q button changes exactly one of the two answers, to O/G or to 1/2. The Next button carries both current answers. |
| Callbacks.OnNext | api/webhook.py:469-486 | `QN` refuses unless the first answer is O or G and the second is 1 or 2. It then moves to the remaining codes when there are any, and takes the final step otherwise. |
| Callbacks.StartPref | api/webhook.py:327-337 | The first preference prompt is shown exactly when there are codes. |
| Callbacks.FreshPromptRefuses | api/webhook.py:327-337 | A fresh prompt starts at `?`/`?`, so pressing its Next button is refused. |
| Callbacks.AnswerBoth | api/webhook.py:311-325 | After answering the first question and then the second, the prompt's Next button is accepted. |
| Callbacks.PrefWalk | api/webhook.py:476-479 | With both answers given, Next moves from the first code to the rest of the list, or finishes after the last. |
| Callbacks.PrefPayloadsPlain | api/webhook.py:330-331 | The code and the dot-joined remaining codes contain no `\|`, so preference payloads parse back. |
| Sessions.SessionOf | api/webhook.py:344-347 | `session(chat)` is the stored session, or `{"stage": "idle", "name": ""}` for a new chat. |
| Sessions.Touch | api/webhook.py:344-347 | `session(chat)` adds a fresh entry for a new chat and leaves every other chat as it was. |
| Sessions.Young | api/webhook.py:352 | Pruning keeps only entries younger than `ttl`. |
| Sessions.YoungMembers | api/webhook.py:352 | An entry survives pruning exactly when it is younger than `ttl`. |
| Sessions.AfterCheck | api/webhook.py:349-359 | `already_done` answers whether the signature is among the pruned entries. |
| Sessions.HoldsWhileYoung | api/webhook.py:352-356 | The answer is true exactly when the signature was recorded less than `ttl` seconds before `now`. |
| Sessions.AfterCheckKeeps | api/webhook.py:352-358 | The stored list afterwards holds only young entries, never repeats a signature, and holds the one just checked. |
| Sessions.RepeatSuppressed | api/webhook.py:349-359 | A signature accepted at `t0` is reported as done by a repeat at any `t1` within `ttl` seconds. |
| Sessions.ExpiredAccepted | api/webhook.py:352-359 | Once every record of a signature is `ttl` seconds old, it is accepted again. |
| Webhook.SubjectsOf | api/webhook.py:441 | The subject names of the codes, or a `KeyError` exactly when some code is not in `CODE_TO_SUBJECT`. |
| Webhook.Bot.constructor | api/webhook.py:341-342 | The bot starts with empty `SESSIONS` and `RECENT_DONE`, over a catalogue whose `_subjects_canon` sets are the ones the load-time pass at lines 155-162 builds (`CanonSet`). |
| Webhook.Bot.SessionFor | api/webhook.py:344-347 | `session(chat)` in place: it returns the chat's session and adds a fresh one when missing. |
| Webhook.Bot.AlreadyDone | api/webhook.py:349-359 | The pruning loop and the search loop update this chat's `RECENT_DONE` entry as `AfterCheck` says and answer as it does. Nothing else changes. |
| Webhook.Bot.Board | api/webhook.py:385-394 | The `B\|` branch: stores the board and shows the grade keyboard. |
| Webhook.Bot.Grade | api/webhook.py:397-409 | The `G\|` branch: stores board and grade and shows the subject keyboard with nothing selected. |
| Webhook.Bot.Done | api/webhook.py:429-455 | The `D\|` branch: alerts when no code is selected. Otherwise it stores board, grade, codes and subject names, then opens the first preference prompt. An unknown code raises after the first three writes. |
| Webhook.Bot.Final | api/webhook.py:487-499 | The final step: board, grade and subjects come from the session where stored, with the signature checked by `already_done`. A repeat is quiet; otherwise the results follow. |
| Webhook.Bot.Next | api/webhook.py:469-499 | The `QN\|` branch: refuses without both answers, moves to the next code, or takes the final step. |
| Webhook.ToggleStep | api/webhook.py:412-425 | The `T\|` branch changes nothing stored. It shows the subject keyboard for the toggled selection exactly when every selected code has a label (`Labelled`), and otherwise nothing, since `summary_text` raises. |
| Webhook.Bot.Perform | api/webhook.py:381-523 | Performs a recognised action as the matching branch does. The state and reply equal `ActStep`, the per-branch step functions (`BoardStep`, `GradeStep`, `ToggleStep`, `DoneStep`, `NextStep`). A `T\|` selection holding a code without a label shows nothing, because `summary_text` raises. |
| Webhook.Bot.Dispatch | api/webhook.py:374-525 | Performs a parsed payload. The state and reply equal `Step`: `ActStep` for a recognised action (including the quiet `T\|` and `D\|` `KeyError` paths). An unrecognised payload, or one whose parsing raises, changes nothing. |
| Webhook.Bot.OnCallback | api/webhook.py:374-525 | A callback query: the state and reply are `Step` of `Parse(data)`. For results, the tutors sent are `collect_best_matches(subjects, grade, board, k=4)`. |
| Webhook.Bot.OnMessage | api/webhook.py:528-562 | A text message; the new sessions and the reply equal `MessageStep`. `/start` or `start` (any case, stripped) resets the session. A non-empty text in the name stage is stored as the name, and the flow moves on. Anything else shows the board keyboard. |
| Conversation.FinalCoherent | api/webhook.py:487-499 | The final step keeps every session coherent and every chat's signatures unique. |
| Conversation.DoneCoherent | api/webhook.py:429-441 | The done step keeps sessions coherent: codes only with a grade and never empty, subject names only with codes. |
| Conversation.BoardCoherent | api/webhook.py:385-388 | Storing a board keeps sessions coherent. |
| Conversation.GradeCoherent | api/webhook.py:397-402 | Storing a board and a grade keeps sessions coherent. |
| Conversation.NextCoherent | api/webhook.py:469-499 | The `QN` step keeps the world coherent. |
| Conversation.StepCoherent | api/webhook.py:374-525 | Every callback keeps the world coherent. |
| Conversation.MessageCoherent | api/webhook.py:532-547 | Every text message keeps sessions coherent: a name exactly in the flow stage. |
| Conversation.FinalIsolated | api/webhook.py:487-499 | The final step changes no other chat's session or records. |
| Conversation.DoneIsolated | api/webhook.py:437-441 | The done step changes no other chat's session or records. |
| Conversation.NextIsolated | api/webhook.py:469-499 | The `QN` step changes no other chat's session or records. |
| Conversation.StepIsolated | api/webhook.py:374-525 | No callback changes another chat's session or records. |
| Conversation.RepeatedFinalQuiet | api/webhook.py:494-497 | A callback that produced results, repeated within `ttl` seconds, produces nothing. |
| Conversation.ResultsPicks | api/webhook.py:499 | At most four tutors are sent, none twice by key. Each comes from some subject's top-3 matches. |
| Conversation.StartThenName | api/webhook.py:536-554 | `/start` asks for the name. The next non-empty text is stored as the name, moves the flow on and shows the board keyboard. |
| Conversation.BoardPress | api/webhook.py:247-252 | Each board button stores one of `C`, `E`, `O` and shows the grade keyboard. |
| Conversation.GradePress | api/webhook.py:397-408 | Each grade button stores the board and a grade from 7 to 12, and shows the empty subject keyboard. |
| Conversation.TogglePress | api/webhook.py:412-425 | Each toggle button leaves the state alone and shows the keyboard for the toggled selection, which still holds only offered codes. |
| Conversation.UnlabelledToggleQuiet | api/webhook.py:412-425 | A `T\|` press whose toggled selection holds a code without a `CODE_TO_SUBJECT` label changes nothing and shows nothing: `summary_text` raises `KeyError` and the catch-all answers quietly. |
| Conversation.UnknownToggleQuiet | api/webhook.py:284-286 | The payload `T\|ZZ\|C\|9\|` (the unknown code `ZZ`) changes nothing and shows nothing. |
| Conversation.DoneShown | api/webhook.py:277-280 | The subject keyboard carries the Done button for its selection. |
| Conversation.DoneOfSelection | api/webhook.py:429-454 | Done with an empty selection alerts and changes nothing. Otherwise it stores board, grade, the sorted codes and their subject names, and prompts for the first code with the rest dot-joined. |
| Conversation.DonePress | api/webhook.py:278 | Pressing the Done button performs exactly the done step for its selection. |
| Conversation.NextPress | api/webhook.py:469-499 | Pressing Next with both answers prompts for the next code, or takes the final step after the last one. |
| WaLink.OrElse | api/webhook.py:198 | Python's `or`: the first value when present and non-empty, otherwise the default. |
| WaLink.Digits | api/webhook.py:203 | `re.sub(r"\D+", "", s)` keeps only digits and never lengthens the text. |
| WaLink.Normalise | api/webhook.py:200-204 | The link base always starts with `https://wa.me/`. An input that already does is kept; any other becomes the prefix plus its digits. |
| WaLink.DigitsMembers | api/webhook.py:203 | A character survives exactly when it is a digit of the input. |
| WaLink.DigitsAppend | api/webhook.py:203 | Digits are taken piecewise: those of a concatenation are the concatenated digits. |
| WaLink.RebuiltFromDigits | api/webhook.py:203-204 | A rebuilt link is the prefix followed by digits only, and holds every digit of the number. |
| WaLink.PunctuationIgnored | api/webhook.py:203 | Inserting non-digit punctuation into a number does not change its digits. |
| WaLink.NormaliseIdempotent | api/webhook.py:200-204 | Normalising a link base again changes nothing. |
| WaLink.ContactChoice | api/webhook.py:197-198 | The WhatsApp entry wins when non-empty, then the phone. With neither, the link base is the bare prefix. |

## Left out

- Network and framework plumbing is not modelled: the `tg` calls to the Telegram HTTP API,
  the Flask app and routes, `request.get_json`, `ping`, and the printing. A reply is modelled
  as the keyboard or alert the handler would send (`Reply`), not as the request it makes.
- Message texts, HTML escaping (`h`), `pref_text`, the overview and caption builders, and the
  `?text=` message appended by `build_wa_link` are presentation only and are not modelled.
  `summary_text` is modelled only for the one way it can fail: it looks up the label of every
  selected code, so a `T|` selection holding a code without a label raises (`Labelled`,
  `ToggleStep`). Its text is not modelled. Keyboards are modelled by their buttons' actions and
  payloads. Button labels and tick marks are left out.
- Reading `teachers.json` at import is file I/O. The catalogue is an input sequence, so a load
  failure is the empty catalogue.
- The update dispatch on JSON shape is not modelled: `callback_query`, `message` or
  `edited_message`, and a missing `data` or `text`. A callback is given by its chat, message
  id and payload text, and a message by its chat and text.
- The handler's top-level `except` is modelled for the exceptions the handler's own code can
  raise: an unpacking or `int()` failure in payload parsing (`Raises`), the `KeyError` of the
  `D|` branch (see Webhook.Bot.Done below) and the `KeyError` of `summary_text` in the `T|`
  branch. Each ends the update quietly. An unknown payload changes nothing either. Exceptions
  from the Telegram calls are I/O.
- Webhook.Bot.OnCallback: the tutors are computed after the step rather than inside the `QN`
  branch. This is the same list, because `collect_best_matches` reads only the catalogue and
  the values the step returns.
- Webhook.Bot.Done: a `D|` payload with a code that is not in `CODE_TO_SUBJECT` is modelled as
  written. Board, grade and codes are stored, then the `KeyError` leaves the subject names
  unwritten and nothing is shown. Only hand-made payloads reach this.
- Callbacks.ParseFormat: the round trip requires every field but the last to be free of `|`.
  The boards on the keyboards are `C`, `E` and `O`, and the subject codes are fixed, so every
  button the bot builds meets this. A hand-made board containing `|` does not round-trip.
- The Q/QN preference answers are never stored or used in matching by the source. They are
  modelled only as the payloads and the validity check.
- `time.time()` is the parameter `now`. Integer widths play no part, since Python's integers
  are unbounded like Dafny's.
- `str.lower`, `str.isspace`, `\s`, `\D` and `str.title` are modelled for ASCII. `title()` is
  given by a per-entry display name checked against its key, not re-implemented.
- `index.py` is not part of this model: its fuzzy matching calls `rapidfuzz`, which cannot be
  seen, and uses float weights. `api/wa.py` (HMAC, base64, analytics and a redirect page) and
  `api/health.py` (a constant response) are not part of this model either.
- Concurrency between webhook invocations is not modelled. Each update is one atomic step on
  the in-memory dictionaries.
