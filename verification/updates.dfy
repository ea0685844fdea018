/**
 * The `/updates` slash-command formatter: turns a free-text block of daily
 * updates into a chat message with one attachment per kind of update.
 *
 * Each line of the text is `<code>: <content>`; the code `t` files the
 * content under Today, `y` under Yesterday and `b` under Blockers, whatever
 * its case and surrounding whitespace. A line without a colon or with any
 * other code is dropped.
 */
module Updates {
  import opened Wrappers
  import opened Text

  datatype Category = Today | Yesterday | Blockers

  /** What one line of the update text contributes. */
  datatype LineClass = Entry(category: Category, content: string) | Dropped

  datatype Attachment = Attachment(fallback: string, title: string, text: string)

  datatype Message = Message(iconUrl: string, username: string, attachments: seq<Attachment>)

  const IconUrl: string := "https://catalyze.io/favicon.png"

  function Title(c: Category): string {
    match c
    case Today => "Today"
    case Yesterday => "Yesterday"
    case Blockers => "Blockers"
  }

  /** The text a fallback starts with: the title, then ": ". */
  function FallbackPrefix(c: Category): string {
    match c
    case Today => "Today: "
    case Yesterday => "Yesterday: "
    case Blockers => "Blockers: "
  }

  /** Position of a title in the fixed attachment order Today, Yesterday, Blockers. */
  function TitleRank(title: string): nat {
    if title == "Today" then 0 else if title == "Yesterday" then 1 else 2
  }

  /** The one-letter code that selects a category, in lower and in upper case. */
  function Letter(c: Category): char {
    match c
    case Today => 't'
    case Yesterday => 'y'
    case Blockers => 'b'
  }

  function UpperLetter(c: Category): char {
    match c
    case Today => 'T'
    case Yesterday => 'Y'
    case Blockers => 'B'
  }

  /** `key == [letter]`: the key is exactly that one letter. */
  predicate IsLetter(key: string, letter: char) {
    |key| == 1 && key[0] == letter
  }

  /** The category the text before a line's first colon selects, once stripped and lower-cased. */
  function CategoryOfCode(code: string): Option<Category> {
    var key := Lower(Trim(code));
    if IsLetter(key, 't') then Some(Today)
    else if IsLetter(key, 'y') then Some(Yesterday)
    else if IsLetter(key, 'b') then Some(Blockers)
    else None
  }

  /** Splits a line once on its first ':' and files the stripped remainder by its code. */
  function Classify(line: string): LineClass {
    match SplitOnce(line, ':')
    case None => Dropped
    case Some((code, rest)) =>
      match CategoryOfCode(code)
      case Some(c) => Entry(c, Trim(rest))
      case None => Dropped
  }

  /** The contents of the lines filed under `c`, in line order. */
  function Bucket(lines: seq<string>, c: Category): (entries: seq<string>)
    ensures |entries| <= |lines|
  {
    if lines == [] then [] else Bucket(lines[..|lines| - 1], c) + Contribution(lines[|lines| - 1], c)
  }

  /** What one line adds to the bucket of `c`. */
  function Contribution(line: string, c: Category): seq<string> {
    match Classify(line)
    case Entry(c', content) => if c' == c then [content] else []
    case Dropped => []
  }

  lemma BucketSnoc(lines: seq<string>, line: string, c: Category)
    ensures Bucket(lines + [line], c) == Bucket(lines, c) + Contribution(line, c)
  {
    assert (lines + [line])[..|lines|] == lines;
  }

  /** Reading the line at `i` extends the bucket of the lines before it by that line's contribution. */
  lemma BucketStep(lines: seq<string>, i: nat, c: Category)
    requires i < |lines|
    ensures Bucket(lines[..i + 1], c) == Bucket(lines[..i], c) + Contribution(lines[i], c)
  {
    assert lines[..i + 1][..i] == lines[..i];
  }

  /**
   * What a line contributes, in the steps the formatter's loop takes: split
   * once on ':', strip and lower-case the code, strip the content.
   */
  lemma ContributionBySteps(line: string)
    ensures var status := SplitOnce(line, ':');
      var key := if status.Some? then Lower(Trim(status.value.0)) else "";
      var content := if status.Some? then Trim(status.value.1) else "";
      && Contribution(line, Today) == (if status.Some? && IsLetter(key, 't') then [content] else [])
      && Contribution(line, Yesterday) == (if status.Some? && !IsLetter(key, 't') && IsLetter(key, 'y') then [content] else [])
      && Contribution(line, Blockers) == (if status.Some? && !IsLetter(key, 't') && !IsLetter(key, 'y') && IsLetter(key, 'b') then [content] else [])
  {
  }

  /** How many lines no bucket receives. */
  function DroppedCount(lines: seq<string>): nat {
    if lines == [] then 0
    else DroppedCount(lines[..|lines| - 1]) + (if Classify(lines[|lines| - 1]).Dropped? then 1 else 0)
  }

  function Bullets(entries: seq<string>): seq<string> {
    if entries == [] then [] else ["- " + entries[0]] + Bullets(entries[1..])
  }

  /** The attachment for one non-empty bucket. */
  function MakeAttachment(c: Category, entries: seq<string>): Attachment {
    Attachment(FallbackPrefix(c) + Join(entries, ", "), Title(c), Join(Bullets(entries), "\n"))
  }

  function AttachmentIfAny(c: Category, entries: seq<string>): seq<Attachment> {
    if |entries| > 0 then [MakeAttachment(c, entries)] else []
  }

  /** The message built from the lines of an update text. */
  function MessageOfLines(username: string, lines: seq<string>): Message {
    Message(IconUrl, "Updates: " + username,
      Assemble(Bucket(lines, Today), Bucket(lines, Yesterday), Bucket(lines, Blockers)))
  }

  /** The attachments for three buckets, in the order Today, Yesterday, Blockers. */
  function Assemble(today: seq<string>, yesterday: seq<string>, blockers: seq<string>): seq<Attachment> {
    AttachmentIfAny(Today, today) + AttachmentIfAny(Yesterday, yesterday) + AttachmentIfAny(Blockers, blockers)
  }

  /** One of three buckets, by category. */
  function Pick(c: Category, today: seq<string>, yesterday: seq<string>, blockers: seq<string>): seq<string> {
    match c
    case Today => today
    case Yesterday => yesterday
    case Blockers => blockers
  }

  /** The message `build_slack_message(username, updates)` returns. */
  function MessageOf(username: string, updates: string): Message {
    MessageOfLines(username, SplitLines(updates))
  }

  /**
   * The body of the loop of `Updates.build_slack_message`: splits the line once
   * on ':', and when the stripped, lower-cased code is `t`, `y` or `b` appends
   * the stripped remainder to that bucket. A line without ':' or with any
   * other code is dropped.
   */
  method FileLine(line: string, today: seq<string>, yesterday: seq<string>, blockers: seq<string>)
    returns (today': seq<string>, yesterday': seq<string>, blockers': seq<string>)
    ensures today' == today + Contribution(line, Today)
    ensures yesterday' == yesterday + Contribution(line, Yesterday)
    ensures blockers' == blockers + Contribution(line, Blockers)
  {
    ContributionBySteps(line);
    today', yesterday', blockers' := today, yesterday, blockers;
    var status := SplitOnce(line, ':');
    if status.Some? {
      var statusType := Lower(Trim(status.value.0));
      var statusText := Trim(status.value.1);
      if IsLetter(statusType, 't') {
        today' := today' + [statusText];
      } else if IsLetter(statusType, 'y') {
        yesterday' := yesterday' + [statusText];
      } else if IsLetter(statusType, 'b') {
        blockers' := blockers' + [statusText];
      }
      // any other code: the line is dropped
    }
    // a line without ':' is dropped
  }

  /**
   * The loop of `Updates.build_slack_message`: files every line of the text,
   * in line order.
   */
  method CollectBuckets(lines: seq<string>) returns (today: seq<string>, yesterday: seq<string>, blockers: seq<string>)
    ensures today == Bucket(lines, Today)
    ensures yesterday == Bucket(lines, Yesterday)
    ensures blockers == Bucket(lines, Blockers)
  {
    today, yesterday, blockers := [], [], [];
    var i := 0;
    while i < |lines|
      invariant 0 <= i <= |lines|
      invariant today == Bucket(lines[..i], Today)
      invariant yesterday == Bucket(lines[..i], Yesterday)
      invariant blockers == Bucket(lines[..i], Blockers)
    {
      BucketStep(lines, i, Today);
      BucketStep(lines, i, Yesterday);
      BucketStep(lines, i, Blockers);
      today, yesterday, blockers := FileLine(lines[i], today, yesterday, blockers);
      i := i + 1;
    }
    assert lines[..i] == lines;
  }

  /**
   * `Updates.build_slack_message`: fills the three buckets, then adds one
   * attachment per non-empty bucket, Today first and Blockers last. It never
   * fails, and the header does not depend on the text.
   */
  method BuildSlackMessage(username: string, updates: string) returns (message: Message)
    ensures message == MessageOf(username, updates)
    ensures message.username == "Updates: " + username && message.iconUrl == IconUrl
    ensures updates == "" ==> message.attachments == []
  {
    var today, yesterday, blockers := CollectBuckets(SplitLines(updates));
    var attachments := [];
    if |today| > 0 {
      attachments := attachments + [MakeAttachment(Today, today)];
    }
    assert attachments == AttachmentIfAny(Today, today);
    if |yesterday| > 0 {
      attachments := attachments + [MakeAttachment(Yesterday, yesterday)];
    }
    assert attachments == AttachmentIfAny(Today, today) + AttachmentIfAny(Yesterday, yesterday);
    if |blockers| > 0 {
      attachments := attachments + [MakeAttachment(Blockers, blockers)];
    }
    assert attachments == AttachmentIfAny(Today, today) + AttachmentIfAny(Yesterday, yesterday)
      + AttachmentIfAny(Blockers, blockers);
    message := Message(IconUrl, "Updates: " + username, attachments);
  }

  // ---------------------------------------------------------------------------
  // Classifying one line

  /** Lower-casing gives a one-letter code exactly when the key is that letter in either case. */
  lemma LowerIsLetter(key: string, c: Category)
    ensures IsLetter(Lower(key), Letter(c)) <==> key == [Letter(c)] || key == [UpperLetter(c)]
  {
    if |key| == 1 {
      assert Lower(key)[0] == LowerChar(key[0]);
    }
  }

  /**
   * The code is case- and whitespace-insensitive: it selects `c` exactly when,
   * once stripped, it is `c`'s letter in lower or upper case.
   */
  lemma CodeSelects(code: string, c: Category)
    ensures CategoryOfCode(code) == Some(c) <==> Trim(code) == [Letter(c)] || Trim(code) == [UpperLetter(c)]
  {
    var key := Trim(code);
    LowerIsLetter(key, Today);
    LowerIsLetter(key, Yesterday);
    LowerIsLetter(key, Blockers);
  }

  /** A code letter of either case, padded with whitespace on both sides, selects its category. */
  lemma PaddedCode(left: string, letter: char, right: string, c: Category)
    requires AllSpace(left) && AllSpace(right)
    requires letter == Letter(c) || letter == UpperLetter(c)
    ensures CategoryOfCode(left + [letter] + right) == Some(c)
  {
    TrimPadded(left, [letter], right);
    CodeSelects(left + [letter] + right, c);
  }

  /**
   * A line `code:rest` whose code holds no ':' is filed by its code, and its
   * content is the stripped remainder, later colons included.
   */
  lemma ClassifyByCode(code: string, rest: string)
    requires ':' !in code
    ensures Classify(code + [':'] + rest) ==
      match CategoryOfCode(code)
      case Some(c) => Entry(c, Trim(rest))
      case None => Dropped
  {
    SplitOnceOfJoin(code, ':', rest);
  }

  /** A line without ':' is dropped. */
  lemma LineWithoutColon(line: string)
    requires ':' !in line
    ensures Classify(line) == Dropped
  {
    SplitOnceParts(line, ':');
  }

  /** The content of an entry is a piece of its line, so a break-free line gives a break-free entry. */
  lemma EntryNoBreak(line: string)
    requires NoBreak(line)
    ensures Classify(line).Entry? ==> NoBreak(Classify(line).content)
  {
    var i := IndexOf(line, ':');
    if i < |line| {
      var rest := line[i + 1..];
      assert NoBreak(rest) by {
        forall k | 0 <= k < |rest|
          ensures !IsLineBreak(rest[k])
        {
          assert rest[k] == line[i + 1 + k];
        }
      }
      TrimSpec(rest);
    }
  }

  // ---------------------------------------------------------------------------
  // Buckets

  lemma {:induction false} BucketAppend(a: seq<string>, b: seq<string>, c: Category)
    ensures Bucket(a + b, c) == Bucket(a, c) + Bucket(b, c)
    decreases |b|
  {
    if b == [] {
      assert a + b == a;
    } else {
      var init, last := b[..|b| - 1], b[|b| - 1];
      assert (a + b)[..|a + b| - 1] == a + init;
      assert (a + b)[|a + b| - 1] == last;
      BucketAppend(a, init, c);
      var x, y, z := Bucket(a, c), Bucket(init, c), Contribution(last, c);
      assert Bucket(a + b, c) == x + y + z;
      assert Bucket(b, c) == y + z;
      assert x + y + z == x + (y + z);
    }
  }

  /** A line contributes `x` to the bucket of `c` exactly when it is filed under `c` with content `x`. */
  lemma ContributionMembers(line: string, c: Category, x: string)
    ensures x in Contribution(line, c) <==> Classify(line) == Entry(c, x)
  {
  }

  /** An entry is in the bucket of `c` exactly when some line is filed under `c` with that content. */
  lemma BucketMembers(lines: seq<string>, c: Category, x: string)
    ensures x in Bucket(lines, c) <==> exists i :: 0 <= i < |lines| && Classify(lines[i]) == Entry(c, x)
  {
    if x in Bucket(lines, c) {
      BucketHasLine(lines, c, x);
    }
    if i :| 0 <= i < |lines| && Classify(lines[i]) == Entry(c, x) {
      LineInBucket(lines, i, c, x);
    }
  }

  /** Every entry of a bucket comes from a line filed under its category. */
  lemma {:induction false} BucketHasLine(lines: seq<string>, c: Category, x: string)
    requires x in Bucket(lines, c)
    ensures exists i :: 0 <= i < |lines| && Classify(lines[i]) == Entry(c, x)
  {
    var init, last := lines[..|lines| - 1], lines[|lines| - 1];
    BucketStep(lines, |lines| - 1, c);
    assert lines[..|lines| - 1 + 1] == lines;
    if x in Bucket(init, c) {
      BucketHasLine(init, c, x);
      var i :| 0 <= i < |init| && Classify(init[i]) == Entry(c, x);
      assert lines[i] == init[i];
    } else {
      ContributionMembers(last, c, x);
      assert Classify(lines[|lines| - 1]) == Entry(c, x);
    }
  }

  /** A line filed under `c` puts its content in the bucket of `c`. */
  lemma {:induction false} LineInBucket(lines: seq<string>, i: nat, c: Category, x: string)
    requires i < |lines| && Classify(lines[i]) == Entry(c, x)
    ensures x in Bucket(lines, c)
    decreases |lines|
  {
    var init, last := lines[..|lines| - 1], lines[|lines| - 1];
    BucketStep(lines, |lines| - 1, c);
    assert lines[..|lines| - 1 + 1] == lines;
    var before, added := Bucket(init, c), Contribution(last, c);
    if i < |init| {
      assert init[i] == lines[i];
      LineInBucket(init, i, c, x);
      assert x in before;
    } else {
      assert i == |lines| - 1;
      ContributionMembers(last, c, x);
      assert x in added;
    }
    assert x in before + added;
  }

  /** A bucket is non-empty exactly when some line is filed under its category. */
  lemma BucketNonEmpty(lines: seq<string>, c: Category)
    ensures Bucket(lines, c) != [] <==>
      exists i :: 0 <= i < |lines| && Classify(lines[i]).Entry? && Classify(lines[i]).category == c
  {
    if Bucket(lines, c) != [] {
      BucketMembers(lines, c, Bucket(lines, c)[0]);
    }
    if i :| 0 <= i < |lines| && Classify(lines[i]).Entry? && Classify(lines[i]).category == c {
      BucketMembers(lines, c, Classify(lines[i]).content);
    }
  }

  /** Every line lands in exactly one bucket or is dropped. */
  lemma {:induction false} LinesPartition(lines: seq<string>)
    ensures |Bucket(lines, Today)| + |Bucket(lines, Yesterday)| + |Bucket(lines, Blockers)|
      + DroppedCount(lines) == |lines|
  {
    if lines != [] {
      LinesPartition(lines[..|lines| - 1]);
    }
  }

  /** Entries taken from break-free lines hold no line break. */
  lemma {:induction false} BucketNoBreak(lines: seq<string>, c: Category)
    requires forall i :: 0 <= i < |lines| ==> NoBreak(lines[i])
    ensures forall k :: 0 <= k < |Bucket(lines, c)| ==> NoBreak(Bucket(lines, c)[k])
  {
    if lines != [] {
      var init, last := lines[..|lines| - 1], lines[|lines| - 1];
      BucketNoBreak(init, c);
      EntryNoBreak(last);
    }
  }

  // ---------------------------------------------------------------------------
  // The message

  /** A dropped line adds nothing to any bucket, wherever it stands. */
  lemma DroppedLineSkipped(before: seq<string>, line: string, after: seq<string>, c: Category)
    requires Classify(line) == Dropped
    ensures Bucket(before + [line] + after, c) == Bucket(before + after, c)
  {
    BucketAppend(before + [line], after, c);
    BucketSnoc(before, line, c);
    BucketAppend(before, after, c);
  }

  /** A dropped line changes nothing in the message, wherever it stands. */
  lemma DroppedLineIgnored(username: string, before: seq<string>, line: string, after: seq<string>)
    requires Classify(line) == Dropped
    ensures MessageOfLines(username, before + [line] + after) == MessageOfLines(username, before + after)
  {
    DroppedLineSkipped(before, line, after, Today);
    DroppedLineSkipped(before, line, after, Yesterday);
    DroppedLineSkipped(before, line, after, Blockers);
  }

  lemma TitleRanks()
    ensures TitleRank(Title(Today)) == 0
    ensures TitleRank(Title(Yesterday)) == 1
    ensures TitleRank(Title(Blockers)) == 2
  {
    assert Title(Yesterday) != "Today" by { assert Title(Yesterday)[0] == 'Y'; }
    assert Title(Blockers) != "Today" by { assert Title(Blockers)[0] == 'B'; }
    assert Title(Blockers) != "Yesterday" by { assert Title(Blockers)[0] == 'B'; }
  }

  /** The category whose attachment sits at position `i`, given how many the first two buckets gave. */
  function Owner(i: int, nToday: nat, nYesterday: nat): Category {
    if i < nToday then Today else if i < nToday + nYesterday then Yesterday else Blockers
  }

  /** Where the attachment of `c` sits, given how many the first two buckets gave. */
  function Slot(c: Category, nToday: nat, nYesterday: nat): nat {
    match c
    case Today => 0
    case Yesterday => nToday
    case Blockers => nToday + nYesterday
  }

  /** The attachment at position `i` is that of the `Owner` category, whose bucket is non-empty. */
  lemma AssembleOwners(today: seq<string>, yesterday: seq<string>, blockers: seq<string>)
    ensures var atts := Assemble(today, yesterday, blockers);
      var nToday, nYesterday := |AttachmentIfAny(Today, today)|, |AttachmentIfAny(Yesterday, yesterday)|;
      forall i :: 0 <= i < |atts| ==>
        var c := Owner(i, nToday, nYesterday);
        Pick(c, today, yesterday, blockers) != [] && atts[i] == MakeAttachment(c, Pick(c, today, yesterday, blockers))
  {
  }

  /** The attachment of each non-empty bucket sits at its `Slot`. */
  lemma AssembleSlots(today: seq<string>, yesterday: seq<string>, blockers: seq<string>)
    ensures var atts := Assemble(today, yesterday, blockers);
      var nToday, nYesterday := |AttachmentIfAny(Today, today)|, |AttachmentIfAny(Yesterday, yesterday)|;
      forall c :: Pick(c, today, yesterday, blockers) != [] ==>
        var i := Slot(c, nToday, nYesterday);
        i < |atts| && atts[i] == MakeAttachment(c, Pick(c, today, yesterday, blockers))
  {
  }

  /** Assembled attachments follow the order Today, Yesterday, Blockers. */
  lemma AssembleOrdered(today: seq<string>, yesterday: seq<string>, blockers: seq<string>)
    ensures var atts := Assemble(today, yesterday, blockers);
      |atts| <= 3 && forall i, j :: 0 <= i < j < |atts| ==> TitleRank(atts[i].title) < TitleRank(atts[j].title)
  {
    var atts := Assemble(today, yesterday, blockers);
    var nToday, nYesterday := |AttachmentIfAny(Today, today)|, |AttachmentIfAny(Yesterday, yesterday)|;
    AssembleOwners(today, yesterday, blockers);
    TitleRanks();
    forall i | 0 <= i < |atts|
      ensures TitleRank(atts[i].title) == if i < nToday then 0 else if i < nToday + nYesterday then 1 else 2
    {
      assert atts[i].title == Title(Owner(i, nToday, nYesterday));
    }
    assert nToday <= 1 && nYesterday <= 1;
    AssembleCount(today, yesterday, blockers);
    forall i, j | 0 <= i < j < |atts|
      ensures TitleRank(atts[i].title) < TitleRank(atts[j].title)
    {
    }
  }

  /** How many of three buckets are non-empty. */
  function NonEmptyCount(today: seq<string>, yesterday: seq<string>, blockers: seq<string>): nat {
    (if today != [] then 1 else 0) + (if yesterday != [] then 1 else 0) + (if blockers != [] then 1 else 0)
  }

  lemma AssembleCount(today: seq<string>, yesterday: seq<string>, blockers: seq<string>)
    ensures |Assemble(today, yesterday, blockers)| == NonEmptyCount(today, yesterday, blockers)
  {
  }

  /** An attachment made for `c` is present only when `c`'s bucket is non-empty. */
  lemma AssembleOnlyNonEmpty(today: seq<string>, yesterday: seq<string>, blockers: seq<string>, c: Category)
    requires MakeAttachment(c, Pick(c, today, yesterday, blockers)) in Assemble(today, yesterday, blockers)
    ensures Pick(c, today, yesterday, blockers) != []
  {
    var atts := Assemble(today, yesterday, blockers);
    var nToday, nYesterday := |AttachmentIfAny(Today, today)|, |AttachmentIfAny(Yesterday, yesterday)|;
    AssembleOwners(today, yesterday, blockers);
    var i :| 0 <= i < |atts| && atts[i] == MakeAttachment(c, Pick(c, today, yesterday, blockers));
    var owner := Owner(i, nToday, nYesterday);
    assert atts[i].title == Title(c) == Title(owner);
    assert c == owner by {
      TitleRanks();
    }
  }

  /**
   * Three buckets give one attachment per non-empty bucket and no other, in
   * the order Today, Yesterday, Blockers.
   */
  lemma AssembleShape(today: seq<string>, yesterday: seq<string>, blockers: seq<string>)
    ensures var atts := Assemble(today, yesterday, blockers);
      && |atts| == NonEmptyCount(today, yesterday, blockers)
      && (forall i, j :: 0 <= i < j < |atts| ==> TitleRank(atts[i].title) < TitleRank(atts[j].title))
      && (forall c :: Pick(c, today, yesterday, blockers) != [] <==>
            MakeAttachment(c, Pick(c, today, yesterday, blockers)) in atts)
  {
    AssembleCount(today, yesterday, blockers);
    AssembleOrdered(today, yesterday, blockers);
    AssembleSlots(today, yesterday, blockers);
    forall c | MakeAttachment(c, Pick(c, today, yesterday, blockers)) in Assemble(today, yesterday, blockers)
      ensures Pick(c, today, yesterday, blockers) != []
    {
      AssembleOnlyNonEmpty(today, yesterday, blockers, c);
    }
  }

  /**
   * The message holds one attachment for each non-empty bucket, with that
   * bucket's entries, and no other: as many attachments as non-empty buckets,
   * in the order Today, Yesterday, Blockers.
   */
  lemma AttachmentsByCategory(username: string, lines: seq<string>)
    ensures var atts := MessageOfLines(username, lines).attachments;
      && |atts| == NonEmptyCount(Bucket(lines, Today), Bucket(lines, Yesterday), Bucket(lines, Blockers))
      && (forall i, j :: 0 <= i < j < |atts| ==> TitleRank(atts[i].title) < TitleRank(atts[j].title))
      && (forall c :: Bucket(lines, c) != [] <==> MakeAttachment(c, Bucket(lines, c)) in atts)
  {
    var today, yesterday, blockers := Bucket(lines, Today), Bucket(lines, Yesterday), Bucket(lines, Blockers);
    AssembleShape(today, yesterday, blockers);
    assert forall c :: Pick(c, today, yesterday, blockers) == Bucket(lines, c) by {
      forall c
        ensures Pick(c, today, yesterday, blockers) == Bucket(lines, c)
      {
        match c
        case Today =>
        case Yesterday =>
        case Blockers =>
      }
    }
  }

  /** The message has no attachment exactly when every line is dropped. */
  lemma NoAttachments(username: string, lines: seq<string>)
    ensures MessageOfLines(username, lines).attachments == [] <==>
      forall i :: 0 <= i < |lines| ==> Classify(lines[i]) == Dropped
  {
    var today, yesterday, blockers := Bucket(lines, Today), Bucket(lines, Yesterday), Bucket(lines, Blockers);
    AssembleCount(today, yesterday, blockers);
    BucketNonEmpty(lines, Today);
    BucketNonEmpty(lines, Yesterday);
    BucketNonEmpty(lines, Blockers);
    forall i | 0 <= i < |lines| && Classify(lines[i]).Entry?
      ensures Pick(Classify(lines[i]).category, today, yesterday, blockers) != []
    {
    }
  }

  /** Reordering the lines keeps each bucket empty or non-empty. */
  lemma NonEmptyUnderReorder(a: seq<string>, b: seq<string>, c: Category)
    requires multiset(a) == multiset(b)
    ensures Bucket(a, c) != [] ==> Bucket(b, c) != []
  {
    BucketNonEmpty(a, c);
    BucketNonEmpty(b, c);
    if Bucket(a, c) != [] {
      var i :| 0 <= i < |a| && Classify(a[i]).Entry? && Classify(a[i]).category == c;
      assert a[i] in multiset(b);
      var j :| 0 <= j < |b| && b[j] == a[i];
    }
  }

  /** The titles of assembled attachments depend only on which buckets are empty. */
  lemma AssembleTitles(today: seq<string>, yesterday: seq<string>, blockers: seq<string>,
                       today': seq<string>, yesterday': seq<string>, blockers': seq<string>)
    requires (today == []) == (today' == [])
    requires (yesterday == []) == (yesterday' == [])
    requires (blockers == []) == (blockers' == [])
    ensures var atts, atts' := Assemble(today, yesterday, blockers), Assemble(today', yesterday', blockers');
      |atts| == |atts'| && forall i :: 0 <= i < |atts| ==> atts[i].title == atts'[i].title
  {
    var atts, atts' := Assemble(today, yesterday, blockers), Assemble(today', yesterday', blockers');
    var nToday, nYesterday := |AttachmentIfAny(Today, today)|, |AttachmentIfAny(Yesterday, yesterday)|;
    assert nToday == |AttachmentIfAny(Today, today')|;
    assert nYesterday == |AttachmentIfAny(Yesterday, yesterday')|;
    AssembleCount(today, yesterday, blockers);
    AssembleCount(today', yesterday', blockers');
    AssembleOwners(today, yesterday, blockers);
    AssembleOwners(today', yesterday', blockers');
    forall i | 0 <= i < |atts|
      ensures atts[i].title == atts'[i].title
    {
      assert atts[i].title == Title(Owner(i, nToday, nYesterday));
      assert atts'[i].title == Title(Owner(i, nToday, nYesterday));
    }
  }

  /** Which titles the message carries does not depend on the order of the lines. */
  lemma TitlesIgnoreLineOrder(username: string, a: seq<string>, b: seq<string>)
    requires multiset(a) == multiset(b)
    ensures var atts, atts' := MessageOfLines(username, a).attachments, MessageOfLines(username, b).attachments;
      |atts| == |atts'| && forall i :: 0 <= i < |atts| ==> atts[i].title == atts'[i].title
  {
    NonEmptyUnderReorder(a, b, Today);
    NonEmptyUnderReorder(b, a, Today);
    NonEmptyUnderReorder(a, b, Yesterday);
    NonEmptyUnderReorder(b, a, Yesterday);
    NonEmptyUnderReorder(a, b, Blockers);
    NonEmptyUnderReorder(b, a, Blockers);
    AssembleTitles(Bucket(a, Today), Bucket(a, Yesterday), Bucket(a, Blockers),
                   Bucket(b, Today), Bucket(b, Yesterday), Bucket(b, Blockers));
  }

  lemma {:induction false} BulletsAt(entries: seq<string>)
    ensures |Bullets(entries)| == |entries|
    ensures forall k :: 0 <= k < |entries| ==> Bullets(entries)[k] == "- " + entries[k]
  {
    if entries != [] {
      BulletsAt(entries[1..]);
    }
  }

  /** Split into lines, an attachment's text gives back its entries in order, each behind "- ". */
  lemma AttachmentTextLines(c: Category, entries: seq<string>)
    requires entries != []
    requires forall k :: 0 <= k < |entries| ==> NoBreak(entries[k])
    ensures SplitLines(MakeAttachment(c, entries).text) == Bullets(entries)
  {
    var bullets := Bullets(entries);
    BulletsNoBreak(entries);
    assert MakeAttachment(c, entries).text == Join(bullets, "\n");
    SplitLinesOfJoin(bullets);
  }

  /** Bullets for entries without line breaks are non-empty and hold no line break. */
  lemma BulletsNoBreak(entries: seq<string>)
    requires forall k :: 0 <= k < |entries| ==> NoBreak(entries[k])
    ensures |Bullets(entries)| == |entries|
    ensures forall k :: 0 <= k < |entries| ==> Bullets(entries)[k] != [] && NoBreak(Bullets(entries)[k])
  {
    BulletsAt(entries);
    assert NoBreak("- ");
    forall k | 0 <= k < |entries|
      ensures NoBreak(Bullets(entries)[k])
    {
      NoBreakConcat("- ", entries[k]);
    }
  }

  /**
   * For each non-empty bucket of an update text the message holds an
   * attachment titled after the category, whose fallback is "<Title>: " and
   * the entries joined by ", ", and whose text, split into lines, is the
   * entries in line order, each behind "- ".
   */
  lemma AttachmentContents(username: string, updates: string, c: Category)
    requires Bucket(SplitLines(updates), c) != []
    ensures var entries := Bucket(SplitLines(updates), c);
      var atts := MessageOf(username, updates).attachments;
      exists i :: 0 <= i < |atts|
        && atts[i].title == Title(c)
        && atts[i].fallback == FallbackPrefix(c) + Join(entries, ", ")
        && SplitLines(atts[i].text) == Bullets(entries)
  {
    var lines := SplitLines(updates);
    SplitLinesNoBreak(updates);
    BucketNoBreak(lines, c);
    AttachmentTextLines(c, Bucket(lines, c));
    AttachmentsByCategory(username, lines);
  }

  // ---------------------------------------------------------------------------
  // Worked examples

  /**
   * A line whose code is a category letter of either case padded with
   * whitespace, followed by ':' and a padded content, is that category's
   * entry with the content stripped; the content may hold further colons.
   */
  lemma PaddedEntry(left: string, letter: char, right: string, pad: string, content: string, trail: string, c: Category)
    requires AllSpace(left) && AllSpace(right) && AllSpace(pad) && AllSpace(trail)
    requires letter == Letter(c) || letter == UpperLetter(c)
    requires content == [] || (!IsSpace(content[0]) && !IsSpace(content[|content| - 1]))
    ensures Classify(left + [letter] + right + [':'] + (pad + content + trail)) == Entry(c, content)
  {
    var code := left + [letter] + right;
    assert ':' !in code by {
      assert forall k :: 0 <= k < |code| ==> code[k] == letter || IsSpace(code[k]);
    }
    PaddedCode(left, letter, right, c);
    TrimPadded(pad, content, trail);
    ClassifyByCode(code, pad + content + trail);
  }

  /** `T: x` is the Today entry "x": the code's case does not matter. */
  lemma ClassifyUpperCode()
    ensures Classify("T: x") == Entry(Today, "x")
  {
    assert "T: x" == "" + ['T'] + "" + [':'] + (" " + "x" + "");
    PaddedEntry("", 'T', "", " ", "x", "", Today);
  }

  /** ` t :x` is the Today entry "x": whitespace around the code does not matter. */
  lemma ClassifySpacedCode()
    ensures Classify(" t :x") == Entry(Today, "x")
  {
    assert " t :x" == " " + ['t'] + " " + [':'] + ("" + "x" + "");
    PaddedEntry(" ", 't', " ", "", "x", "", Today);
  }

  /** `t:x` is the Today entry "x": no space is needed after the colon. */
  lemma ClassifyTightCode()
    ensures Classify("t:x") == Entry(Today, "x")
  {
    assert "t:x" == "" + ['t'] + "" + [':'] + ("" + "x" + "");
    PaddedEntry("", 't', "", "", "x", "", Today);
  }

  /** `t: a:b` is the Today entry "a:b": only the first colon splits. */
  lemma ClassifyLaterColon()
    ensures Classify("t: a:b") == Entry(Today, "a:b")
  {
    assert "t: a:b" == "" + ['t'] + "" + [':'] + (" " + "a:b" + "");
    PaddedEntry("", 't', "", " ", "a:b", "", Today);
  }

  /** A line without a colon is dropped. */
  lemma ClassifyNoColon()
    ensures Classify("random line") == Dropped
  {
    LineWithoutColon("random line");
  }

  /** A line whose stripped code is not a single character is dropped. */
  lemma LongCodeDropped(code: string, rest: string)
    requires ':' !in code
    requires |Trim(code)| != 1
    ensures Classify(code + [':'] + rest) == Dropped
  {
    ClassifyByCode(code, rest);
  }

  /** A line whose code is not t, y or b is dropped. */
  lemma ClassifyUnknownCode()
    ensures Classify("ty: x") == Dropped
  {
    var code: string, rest: string := "ty", " x";
    assert code + [':'] + rest == "ty: x";
    LongCodeDropped(code, rest) by {
      assert LeadingSpace(code) == 0;
      assert TrailingSpace(code) == 0;
      assert |Trim(code)| == 2;
    }
  }

  /** A bucket with a single entry gives an attachment whose three texts are that one entry. */
  lemma SingleEntryAttachment(c: Category, entry: string)
    ensures MakeAttachment(c, [entry]) == Attachment(FallbackPrefix(c) + entry, Title(c), "- " + entry)
  {
    assert [entry][1..] == [];
    assert Bullets([entry]) == ["- " + entry];
  }

  /** The bucket of one line is what that line contributes. */
  lemma BucketSingle(line: string, c: Category)
    ensures Bucket([line], c) == Contribution(line, c)
  {
    BucketSnoc([], line, c);
    assert [] + [line] == [line];
  }

  /** The bucket of two lines is what each of them contributes, in line order. */
  lemma BucketPair(l0: string, l1: string, c: Category)
    ensures Bucket([l0, l1], c) == Contribution(l0, c) + Contribution(l1, c)
  {
    BucketAppend([l0], [l1], c);
    assert [l0] + [l1] == [l0, l1];
    BucketSingle(l0, c);
    BucketSingle(l1, c);
  }

  /** The bucket of four lines is what each of them contributes, in line order. */
  lemma FourLineBucket(l0: string, l1: string, l2: string, l3: string, c: Category)
    ensures Bucket([l0, l1, l2, l3], c)
      == Contribution(l0, c) + Contribution(l1, c) + Contribution(l2, c) + Contribution(l3, c)
  {
    BucketAppend([l0, l1], [l2, l3], c);
    assert [l0, l1] + [l2, l3] == [l0, l1, l2, l3];
    BucketPair(l0, l1, c);
    BucketPair(l2, l3, c);
  }

  /** Four lines filing one entry each under Today, Yesterday and Blockers, then a dropped line. */
  lemma OneOfEachBuckets(l0: string, l1: string, l2: string, l3: string,
                         today: string, yesterday: string, blockers: string)
    requires Classify(l0) == Entry(Today, today)
    requires Classify(l1) == Entry(Yesterday, yesterday)
    requires Classify(l2) == Entry(Blockers, blockers)
    requires Classify(l3) == Dropped
    ensures Bucket([l0, l1, l2, l3], Today) == [today]
    ensures Bucket([l0, l1, l2, l3], Yesterday) == [yesterday]
    ensures Bucket([l0, l1, l2, l3], Blockers) == [blockers]
  {
    FourLineBucket(l0, l1, l2, l3, Today);
    FourLineBucket(l0, l1, l2, l3, Yesterday);
    FourLineBucket(l0, l1, l2, l3, Blockers);
  }

  /** Such lines give one single-entry attachment per category, in order. */
  lemma OneOfEach(username: string, l0: string, l1: string, l2: string, l3: string,
                  today: string, yesterday: string, blockers: string)
    requires Classify(l0) == Entry(Today, today)
    requires Classify(l1) == Entry(Yesterday, yesterday)
    requires Classify(l2) == Entry(Blockers, blockers)
    requires Classify(l3) == Dropped
    ensures MessageOfLines(username, [l0, l1, l2, l3]) == Message(IconUrl, "Updates: " + username,
      [MakeAttachment(Today, [today]), MakeAttachment(Yesterday, [yesterday]), MakeAttachment(Blockers, [blockers])])
  {
    OneOfEachBuckets(l0, l1, l2, l3, today, yesterday, blockers);
  }

  /** A coded line `<letter>: x`, with `x` already stripped, is the entry `x` of the letter's category. */
  lemma CodedLine(c: Category, prefix: string, x: string)
    requires prefix == [Letter(c), ':', ' ']
    requires x == [] || (!IsSpace(x[0]) && !IsSpace(x[|x| - 1]))
    ensures Classify(prefix + x) == Entry(c, x)
  {
    assert prefix + x == "" + [Letter(c)] + "" + [':'] + (" " + x + "");
    PaddedEntry("", Letter(c), "", " ", x, "", c);
  }

  /** A fallback starts with the attachment's title followed by ": ". */
  lemma FallbackPrefixIsTitle(c: Category)
    ensures FallbackPrefix(c) == Title(c) + ": "
  {
    match c
    case Today => assert "Today" + ": " == "Today: ";
    case Yesterday => assert "Yesterday" + ": " == "Yesterday: ";
    case Blockers => assert "Blockers" + ": " == "Blockers: ";
  }

  /** The three single-entry attachments of the worked example, with their titles spelled out. */
  lemma WorkedAttachments(x: string, y: string, z: string)
    ensures [MakeAttachment(Today, [x]), MakeAttachment(Yesterday, [y]), MakeAttachment(Blockers, [z])]
      == [Attachment("Today: " + x, "Today", "- " + x),
          Attachment("Yesterday: " + y, "Yesterday", "- " + y),
          Attachment("Blockers: " + z, "Blockers", "- " + z)]
  {
    SingleEntryAttachment(Today, x);
    SingleEntryAttachment(Yesterday, y);
    SingleEntryAttachment(Blockers, z);
  }

  lemma WorkedLines(x: string, y: string, z: string, stray: string)
    requires NoBreak(x) && NoBreak(y) && NoBreak(z) && NoBreak(stray) && stray != []
    ensures SplitLines(Join(["t: " + x, "y: " + y, "b: " + z, stray], "\n")) == ["t: " + x, "y: " + y, "b: " + z, stray]
  {
    var lines := ["t: " + x, "y: " + y, "b: " + z, stray];
    NoBreakConcat("t: ", x);
    NoBreakConcat("y: ", y);
    NoBreakConcat("b: ", z);
    assert forall i :: 0 <= i < |lines| ==> NoBreak(lines[i]);
    SplitLinesOfJoin(lines);
  }

  lemma WorkedMessage(username: string, x: string, y: string, z: string, stray: string)
    requires x == [] || (!IsSpace(x[0]) && !IsSpace(x[|x| - 1]))
    requires y == [] || (!IsSpace(y[0]) && !IsSpace(y[|y| - 1]))
    requires z == [] || (!IsSpace(z[0]) && !IsSpace(z[|z| - 1]))
    requires ':' !in stray
    ensures MessageOfLines(username, ["t: " + x, "y: " + y, "b: " + z, stray])
      == Message(IconUrl, "Updates: " + username, [
           Attachment("Today: " + x, "Today", "- " + x),
           Attachment("Yesterday: " + y, "Yesterday", "- " + y),
           Attachment("Blockers: " + z, "Blockers", "- " + z)])
  {
    var lines := ["t: " + x, "y: " + y, "b: " + z, stray];
    assert MessageOfLines(username, lines) == Message(IconUrl, "Updates: " + username,
      [MakeAttachment(Today, [x]), MakeAttachment(Yesterday, [y]), MakeAttachment(Blockers, [z])]) by {
      WorkedClasses(x, y, z, stray);
      OneOfEach(username, lines[0], lines[1], lines[2], lines[3], x, y, z);
    }
    WorkedAttachments(x, y, z);
  }

  /** How the four lines of the worked example are filed. */
  lemma WorkedClasses(x: string, y: string, z: string, stray: string)
    requires x == [] || (!IsSpace(x[0]) && !IsSpace(x[|x| - 1]))
    requires y == [] || (!IsSpace(y[0]) && !IsSpace(y[|y| - 1]))
    requires z == [] || (!IsSpace(z[0]) && !IsSpace(z[|z| - 1]))
    requires ':' !in stray
    ensures Classify("t: " + x) == Entry(Today, x)
    ensures Classify("y: " + y) == Entry(Yesterday, y)
    ensures Classify("b: " + z) == Entry(Blockers, z)
    ensures Classify(stray) == Dropped
  {
    CodedLine(Today, "t: ", x);
    CodedLine(Yesterday, "y: ", y);
    CodedLine(Blockers, "b: ", z);
    LineWithoutColon(stray);
  }

  /**
   * A worked example: an update text with one `t:`, one `y:` and one `b:` line
   * and a stray line without a colon gives the attachments Today, Yesterday and
   * Blockers in that order, each holding its one entry, and the stray line is
   * dropped.
   */
  lemma OneLinePerCategory(username: string, x: string, y: string, z: string, stray: string)
    requires NoBreak(x) && NoBreak(y) && NoBreak(z) && NoBreak(stray)
    requires x == [] || (!IsSpace(x[0]) && !IsSpace(x[|x| - 1]))
    requires y == [] || (!IsSpace(y[0]) && !IsSpace(y[|y| - 1]))
    requires z == [] || (!IsSpace(z[0]) && !IsSpace(z[|z| - 1]))
    requires stray != [] && ':' !in stray
    ensures MessageOf(username, Join(["t: " + x, "y: " + y, "b: " + z, stray], "\n"))
      == Message(IconUrl, "Updates: " + username, [
           Attachment("Today: " + x, "Today", "- " + x),
           Attachment("Yesterday: " + y, "Yesterday", "- " + y),
           Attachment("Blockers: " + z, "Blockers", "- " + z)])
  {
    WorkedLines(x, y, z, stray);
    WorkedMessage(username, x, y, z, stray);
  }
}
