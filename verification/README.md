# Slack daily updates: a verified model

This project models the core of `slack.py`, a small web service behind the
Slack slash command `/updates`. The model has three parts.

- **The update formatter** (`Updates.build_slack_message`). It takes a user
  name and a free-text block of updates. Each line of the text has the form
  `<code>: <content>`. The code `t` files the content under Today, `y` under
  Yesterday and `b` under Blockers. The code is matched after it is stripped
  and lower-cased. A line without a colon, or with any other code, is dropped.
  The result is a message with a fixed icon URL, the name
  `"Updates: <user>"`, and one attachment per non-empty bucket, always in the
  order Today, Yesterday, Blockers. Each attachment has a `fallback` (title,
  `": "`, the entries joined by `", "`), a `title`, and a `text` (each entry
  behind `"- "`, joined by newlines).
- **The request body** (line 94 of `Updates.on_post`, with the look-ups of
  line 95). Each body line `key=value` is split at its first `=` into a
  dictionary entry, and a later key overrides an earlier one. A line without
  `=` makes building the dictionary fail. A missing `user_name` or `text` key
  fails the look-up. Both failures are modelled as `Result` errors instead of
  Python exceptions. Keys and values are taken as they stand, because the
  source does no decoding.
- **The health check** (`HealthCheck.status`). The status dictionary always
  has `status` = `ok`, and has `git` = the commit hash exactly when one is
  known. The process environment is a parameter here: the value of
  `COMMIT_HASH` if it is set.

The service runs on Python 2, where a request body and every text taken from
it is a `str`, that is, a byte string. So the string operations are modelled
with their Python 2 `str` meaning:

- `splitlines` ends a line at `"\n"`, `"\r"` or `"\r\n"`;
- `strip` removes space, tab, `"\n"`, `"\r"`, vertical tab and form feed;
- `lower` changes only `A`-`Z`.

These definitions are in `text.dfy`.

The formatter is modelled twice. The first copy is the source's own
imperative shape, and the second is a specification on values:

- `BuildSlackMessage` collects the three buckets in a loop, then appends the
  attachments one `if` at a time. It is proved equal to the function
  `MessageOf`.
- The loop body is a separate method, `FileLine`. It performs one line's
  split/strip/lower/compare steps.
- The specification is a handful of functions on values. `MessageOf` builds
  the message from the `Bucket` of each category. `Bucket` collects what
  `Classify` makes of each line, and `MakeAttachment` turns a non-empty bucket
  into an attachment. The request body is read by `ParsePairs` and
  `MessageFromBody`. The string operations are `SplitLines`, `SplitOnce`,
  `Trim`, `Lower` and `Join`.
- These functions carry at most a length bound. What they compute is stated
  by the lemmas about them, and each function's row below names those lemmas.

## Model

| member | source | states |
|---|---|---|
| Updates.MessageOf | slack.py:22-70 | The message for a user name and an update text. Its properties are stated by `BuildSlackMessage` (the loop computes it), `AttachmentsByCategory`, `AttachmentContents`, `NoAttachments`, `DroppedLineIgnored`, `TitlesIgnoreLineOrder` and `OneLinePerCategory`. |
| Updates.Classify | slack.py:31-45 | What one line is filed as: a category and a content, or dropped. Its properties are stated by `ClassifyByCode`, `CodeSelects`, `PaddedCode`, `PaddedEntry`, `LineWithoutColon`, `LongCodeDropped`, `EntryNoBreak` and the `Classify…` examples. |
| Updates.Bucket | slack.py:30-41 | The entries of one category, in line order. Its contract bounds its length by the number of lines. Its other properties are stated by `CollectBuckets`, `BucketSnoc`, `BucketAppend`, `BucketMembers`, `BucketNonEmpty`, `LinesPartition` and `BucketNoBreak`. |
| Updates.MakeAttachment | slack.py:52-68 | The attachment for one non-empty bucket. Its properties are stated by `FallbackPrefixIsTitle`, `BulletsAt`, `AttachmentTextLines`, `AttachmentContents` and `SingleEntryAttachment`. |
| Updates.FallbackPrefixIsTitle | slack.py:54-67 | A fallback starts with the attachment's title followed by `": "`, for each category. |
| Updates.BuildSlackMessage | slack.py:22-70 | The message built by the loop and the three conditional appends equals `MessageOf(username, updates)`. Its name is `"Updates: " + username` and its icon URL is the constant for every text. An empty text gives no attachments. There is no precondition, so it never fails. |
| Updates.CollectBuckets | slack.py:26-45 | After the loop over the lines, the today, yesterday and blockers lists are exactly `Bucket(lines, c)` for their category. |
| Updates.FileLine | slack.py:31-45 | One pass of the loop body (split once on ':', strip and lower-case the code, strip the content, compare with `t`/`y`/`b`) appends exactly that line's `Contribution` to each list. |
| Updates.ContributionBySteps | slack.py:31-45 | What a line adds to each bucket, written as the source's steps: the `t`, `y`, `b` comparisons in that order, and nothing for a line with no ':'. |
| Updates.BucketSnoc | slack.py:30-41 | Reading one more line extends each bucket by that line's contribution and by nothing else. |
| Updates.LowerIsLetter | slack.py:33 | Lower-casing a key gives a code letter exactly when the key is that letter in lower or upper case. |
| Updates.CodeSelects | slack.py:33-41 | A code selects category c exactly when, once stripped, it is c's letter in either case. |
| Updates.PaddedCode | slack.py:33-37 | A code letter of either case with any whitespace padding selects its category. |
| Updates.ClassifyByCode | slack.py:31-34 | A line `code:rest` whose code has no ':' is filed by that code, with the stripped rest (later colons included) as content. |
| Updates.LineWithoutColon | slack.py:44-45 | A line with no ':' is dropped. |
| Updates.LongCodeDropped | slack.py:36-43 | A line whose stripped code is not a single character is dropped. |
| Updates.PaddedEntry | slack.py:31-37 | A padded `t`/`y`/`b` code of either case, then ':', then a padded content, gives that category's entry with the content stripped. |
| Updates.ClassifyUpperCode | slack.py:33-37 | `T: x` is the Today entry `x`. |
| Updates.ClassifySpacedCode | slack.py:33-37 | ` t :x` is the Today entry `x`. |
| Updates.ClassifyTightCode | slack.py:33-37 | `t:x` is the Today entry `x`. |
| Updates.ClassifyLaterColon | slack.py:31-34 | `t: a:b` is the Today entry `a:b`, because only the first colon splits. |
| Updates.ClassifyNoColon | slack.py:44-45 | `random line` is dropped. |
| Updates.ClassifyUnknownCode | slack.py:42-43 | `ty: x` is dropped. |
| Updates.EntryNoBreak | slack.py:30-34 | An entry taken from a line without line breaks has no line break. |
| Updates.BucketAppend | slack.py:30-41 | The bucket of two runs of lines is the bucket of the first followed by the bucket of the second, so entries keep line order. |
| Updates.BucketMembers | slack.py:30-43 | An entry is in c's bucket exactly when some line is filed under c with that content. |
| Updates.BucketNonEmpty | slack.py:52-64 | A bucket is non-empty exactly when some line is filed under its category. |
| Updates.LinesPartition | slack.py:30-45 | The three bucket sizes plus the number of dropped lines equal the number of lines, so each line goes to one bucket or is dropped. |
| Updates.BucketNoBreak | slack.py:30-41 | No bucket entry contains a line break. |
| Updates.DroppedLineSkipped | slack.py:42-45 | A dropped line adds nothing to any bucket, wherever it stands. |
| Updates.DroppedLineIgnored | slack.py:42-45 | Inserting a dropped line anywhere leaves the whole message unchanged. |
| Updates.AssembleShape | slack.py:52-69 | From three buckets: one attachment per non-empty bucket (the count is the number of non-empty buckets), titles strictly ordered Today, Yesterday, Blockers, and c's attachment present exactly when c's bucket is non-empty. |
| Updates.AttachmentsByCategory | slack.py:52-69 | The same, for the message built from a list of lines: 0 to 3 attachments, in title order, each non-empty bucket with its own attachment. |
| Updates.NoAttachments | slack.py:50-69 | The message has no attachment exactly when every line is dropped. |
| Updates.NonEmptyUnderReorder | slack.py:30-41 | A bucket that is non-empty stays non-empty when the lines are reordered (applied both ways, an empty one stays empty). |
| Updates.AssembleTitles | slack.py:52-69 | The attachment count and titles depend only on which buckets are empty. |
| Updates.TitlesIgnoreLineOrder | slack.py:30-69 | Reordering the lines changes neither the number of attachments nor their titles. |
| Updates.BulletsAt | slack.py:56 | The bullet list has one element per entry, namely `"- "` followed by that entry. |
| Updates.AttachmentTextLines | slack.py:53-57 | Splitting an attachment's text into lines gives back its entries in order, each behind `"- "`. |
| Updates.AttachmentContents | slack.py:52-68 | For each non-empty bucket the message holds an attachment with title `<Title>`, fallback `FallbackPrefix(c)` (`<Title>: `, by `FallbackPrefixIsTitle`) plus the entries joined by `", "`, and a text whose lines are the entries behind `"- "`. |
| Updates.SingleEntryAttachment | slack.py:53-57 | A one-entry bucket gives fallback `FallbackPrefix(c)` followed by the entry (that is `<Title>: <entry>`), title `<Title>` and text `- <entry>`. |
| Updates.OneLinePerCategory | slack.py:22-70 | The text of the four lines `t: <x>`, `y: <y>`, `b: <z>` and a line with no colon (contents already stripped, no line breaks) gives exactly three attachments, in order: Today (fallback `Today: <x>`, text `- <x>`), then Yesterday and Blockers built the same way. The stray line is dropped. |
| Text.SplitLines | slack.py:30 | The lines of a text. Its properties are stated by `SplitLinesNoBreak` and `SplitLinesOfJoin`. |
| Text.SplitOnce | slack.py:31 | The split of a line at its first separator, if it has one. Its properties are stated by `SplitOnceParts` and `SplitOnceOfJoin`. |
| Text.Trim | slack.py:33-34 | A text without its surrounding whitespace. Its properties are stated by `TrimSpec` and `TrimPadded`. |
| Text.Lower | slack.py:33 | A text with `A`-`Z` lower-cased. Its contract keeps the length. `LowerIsLetter` states what it does to a one-letter code. |
| Text.Join | slack.py:54-56 | Texts glued with a separator. `SplitLinesOfJoin` states that splitting undoes joining lines with `"\n"`. `AttachmentContents` uses it for the fallback. |
| Text.SplitLinesNoBreak | slack.py:30 | No line produced by `splitlines` contains a line break. |
| Text.SplitLinesOfJoin | slack.py:56 | Lines without breaks, joined by `"\n"` with a non-empty last line, split back into the same lines. |
| Text.SplitOnceParts | slack.py:31-32 | `split(':', 1)` leaves the line whole exactly when it has no ':'. Otherwise the two parts plus ':' rebuild the line, and the first part has no ':'. |
| Text.SplitOnceOfJoin | slack.py:31 | Splitting `before + ':' + after` once, when `before` has no ':', gives back `before` and `after`. |
| Text.TrimSpec | slack.py:33-34 | A stripped text neither starts nor ends with whitespace. It is empty exactly when the text was all whitespace, and it has no line break if the text had none. |
| Text.TrimPadded | slack.py:33-34 | Stripping removes exactly the whitespace padding around a text. |
| FormBody.ParsePairs | slack.py:94 | The dictionary read from the body lines, or the index of the first line without `=`. Its properties are stated by `ParseSnoc`, `ParseFailsAtFirstBadLine`, `ParseKeys`, `ParseLastWins` and `FieldOverrides`. |
| FormBody.MessageFromBody | slack.py:94-95 | The message built from a request body, or why there is none. Its properties are stated by `MessageFromBodyCases`. |
| FormBody.ParseSnoc | slack.py:94 | Reading one more body line either stops at a line without '=' (its index is the error) or sets that line's key to its value. |
| FormBody.ParseFailsAtFirstBadLine | slack.py:94 | Building the dictionary succeeds exactly when every line has '='. A failure names the first line without '='. |
| FormBody.ParseKeys | slack.py:94 | The dictionary's keys are exactly the keys the lines define, each being the text before its line's first '='. |
| FormBody.ParseLastWins | slack.py:94 | Each key holds the value from the last line that defines it. |
| FormBody.FieldOverrides | slack.py:94 | Appending a line `key=value` sets that key to that value, overriding an earlier one. |
| FormBody.MessageFromBodyCases | slack.py:94-95 | A body gives a message exactly when every line has '=' and both `user_name` and `text` are defined. The message is the formatter's output for those values. Otherwise the error names the first line without '=', or else `user_name`, or else `text`, whichever lookup fails first. |
| HealthCheck.Status | slack.py:106-113 | `status` is always `ok`. `git` is present exactly when a commit hash is given, and then it holds that hash. No other key is present. |

## Left out

- The request plumbing of `on_post` (slack.py:81-98) is not modelled: the `content_length` early return, reading the request stream, the `HTTPBadRequest` for an empty body, and setting the response status and body. It is web-framework I/O.
- `post_to_slack` (slack.py:73-79) is not modelled. It is an outbound HTTP request plus logging, with nothing to state about the model.
- `on_get` (slack.py:115-120), `json.dumps` and the application set-up `api()` are not modelled. They are serialisation and framework or environment plumbing.
- The `other` list (slack.py:29, 43, 45) is not modelled as a variable. It never reaches the output, so lines that would go there are just dropped. Line 45 even appends the whole one-element list, not a string, which has no visible effect.
- Unicode `splitlines` and `strip` are not modelled. The texts are Python 2 `str` byte strings, which use only ASCII line breaks and whitespace. Python 3 is out of scope: there the body is `bytes`, and `line.split('=', 1)` on slack.py:94 would fail on every line.
- The process environment read by `HealthCheck.status` (slack.py:111-112) is not modelled. The value of `COMMIT_HASH`, if set, is a parameter instead.
