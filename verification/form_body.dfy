/**
 * The request body of the `/updates` slash command: one `key=value` field per
 * line, read into a dictionary, from which the user name and the update text
 * are looked up and handed to the formatter.
 *
 * Keys and values are taken as they stand: nothing is decoded.
 */
module FormBody {
  import opened Wrappers
  import opened Text
  import Updates

  /** Why a request body gives no message. */
  datatype BodyError =
    | MalformedLine(index: nat)   // the line at `index` has no '=' (the dictionary cannot be built)
    | MissingField(name: string)  // the dictionary has no such key

  /** The key a line defines, if it has a '='. */
  function Key(line: string): Option<string> {
    match SplitOnce(line, '=')
    case None => None
    case Some((key, _)) => Some(key)
  }

  /**
   * `dict(line.split('=', 1) for line in lines)`: the lines are read in order,
   * each one setting the key before its first '=' to the text after it, so a
   * later line overrides an earlier one with the same key; the first line
   * without '=' stops the construction, and its index is the error.
   */
  function ParsePairs(lines: seq<string>): Result<map<string, string>, nat> {
    if lines == [] then Success(map[])
    else
      match ParsePairs(lines[..|lines| - 1])
      case Failure(index) => Failure(index)
      case Success(fields) =>
        match SplitOnce(lines[|lines| - 1], '=')
        case None => Failure(|lines| - 1)
        case Some((key, value)) => Success(fields[key := value])
  }

  /** The dictionary read from a request body. */
  function ParseBody(body: string): Result<map<string, string>, nat> {
    ParsePairs(SplitLines(body))
  }

  /**
   * The message built from a request body: the fields are read, then
   * `user_name` and `text` are looked up, in that order.
   */
  function MessageFromBody(body: string): Result<Updates.Message, BodyError> {
    match ParseBody(body)
    case Failure(index) => Failure(MalformedLine(index))
    case Success(data) =>
      if "user_name" !in data then Failure(MissingField("user_name"))
      else if "text" !in data then Failure(MissingField("text"))
      else Success(Updates.MessageOf(data["user_name"], data["text"]))
  }

  /** Reading one more line: it either stops the construction or sets its key. */
  lemma ParseSnoc(lines: seq<string>, line: string)
    ensures ParsePairs(lines + [line]) ==
      match ParsePairs(lines)
      case Failure(index) => Failure(index)
      case Success(fields) =>
        match SplitOnce(line, '=')
        case None => Failure(|lines|)
        case Some((key, value)) => Success(fields[key := value])
  {
    assert (lines + [line])[..|lines|] == lines;
  }

  /**
   * Reading fails exactly when some line has no '=', and then the error names
   * the first such line.
   */
  lemma {:induction false} ParseFailsAtFirstBadLine(lines: seq<string>)
    ensures ParsePairs(lines).Success? <==> forall i :: 0 <= i < |lines| ==> '=' in lines[i]
    ensures ParsePairs(lines).Failure? ==>
      var index := ParsePairs(lines).error;
      && index < |lines|
      && '=' !in lines[index]
      && forall j :: 0 <= j < index ==> '=' in lines[j]
  {
    if lines != [] {
      var init, last := lines[..|lines| - 1], lines[|lines| - 1];
      ParseFailsAtFirstBadLine(init);
      SplitOnceParts(last, '=');
      assert forall i :: 0 <= i < |init| ==> init[i] == lines[i];
    }
  }

  /** The keys read are exactly the keys the lines define. */
  lemma {:induction false} ParseKeys(lines: seq<string>)
    requires ParsePairs(lines).Success?
    ensures forall key :: key in ParsePairs(lines).value <==>
      exists i :: 0 <= i < |lines| && Key(lines[i]) == Some(key)
  {
    if lines != [] {
      var init := lines[..|lines| - 1];
      ParseKeys(init);
      forall key
        ensures key in ParsePairs(lines).value <==> exists i :: 0 <= i < |lines| && Key(lines[i]) == Some(key)
      {
        ParseKeyStep(lines, key);
      }
    }
  }

  /** One step of `ParseKeys`: the last line adds its own key to those of the lines before it. */
  lemma ParseKeyStep(lines: seq<string>, key: string)
    requires lines != [] && ParsePairs(lines).Success?
    requires var init := lines[..|lines| - 1];
      key in ParsePairs(init).value <==> exists i :: 0 <= i < |init| && Key(init[i]) == Some(key)
    ensures key in ParsePairs(lines).value <==> exists i :: 0 <= i < |lines| && Key(lines[i]) == Some(key)
  {
    var init, last := lines[..|lines| - 1], lines[|lines| - 1];
    var (k0, v0) := SplitOnce(last, '=').value;
    assert ParsePairs(lines).value == ParsePairs(init).value[k0 := v0];
    if key in ParsePairs(lines).value && key != k0 {
      var i :| 0 <= i < |init| && Key(init[i]) == Some(key);
      assert lines[i] == init[i];
    }
    if i :| 0 <= i < |lines| && Key(lines[i]) == Some(key) {
      if i < |init| {
        assert Key(init[i]) == Some(key);
      } else {
        assert Key(last) == Some(k0);
      }
    }
  }

  /**
   * Each key holds the value of the LAST line defining it: that line splits
   * into the key and the value, and no later line defines the key again.
   */
  lemma {:induction false} ParseLastWins(lines: seq<string>, key: string)
    requires ParsePairs(lines).Success?
    requires key in ParsePairs(lines).value
    ensures
      exists i :: 0 <= i < |lines| &&
        SplitOnce(lines[i], '=') == Some((key, ParsePairs(lines).value[key])) &&
        forall j :: i < j < |lines| ==> Key(lines[j]) != Some(key)
  {
    var init, last := lines[..|lines| - 1], lines[|lines| - 1];
    var fields := ParsePairs(lines).value;
    var (k, v) := SplitOnce(last, '=').value;
    if k == key {
      assert SplitOnce(lines[|lines| - 1], '=') == Some((key, fields[key]));
    } else {
      ParseLastWins(init, key);
      var i :| 0 <= i < |init|
        && SplitOnce(init[i], '=') == Some((key, ParsePairs(init).value[key]))
        && forall j :: i < j < |init| ==> Key(init[j]) != Some(key);
      assert lines[i] == init[i];
      forall j | i < j < |lines|
        ensures Key(lines[j]) != Some(key)
      {
        if j < |init| {
          assert lines[j] == init[j];
        }
      }
    }
  }

  /** A field line `key=value` whose key has no '=' sets that key to that value, overriding it. */
  lemma FieldOverrides(lines: seq<string>, key: string, value: string)
    requires ParsePairs(lines).Success?
    requires '=' !in key
    ensures ParsePairs(lines + [key + "=" + value]) == Success(ParsePairs(lines).value[key := value])
  {
    ParseSnoc(lines, key + "=" + value);
    SplitOnceOfJoin(key, '=', value);
  }

  /**
   * A body gives a message exactly when every line has a '=' and both
   * `user_name` and `text` are defined, and that message is the formatter's
   * output for the last values of those two fields. Otherwise the error names
   * the first line without '=', or else the first of `user_name`, `text`
   * that no line defines.
   */
  lemma MessageFromBodyCases(body: string)
    ensures var lines := SplitLines(body);
      MessageFromBody(body).Success? <==>
        && (forall i :: 0 <= i < |lines| ==> '=' in lines[i])
        && (exists i :: 0 <= i < |lines| && Key(lines[i]) == Some("user_name"))
        && (exists i :: 0 <= i < |lines| && Key(lines[i]) == Some("text"))
    ensures MessageFromBody(body).Success? ==>
      var data := ParseBody(body).value;
      MessageFromBody(body).value == Updates.MessageOf(data["user_name"], data["text"])
    ensures var lines := SplitLines(body);
      MessageFromBody(body).Failure? ==>
        match MessageFromBody(body).error
        case MalformedLine(index) =>
          index < |lines| && '=' !in lines[index] && forall j :: 0 <= j < index ==> '=' in lines[j]
        case MissingField(name) =>
          && (forall i :: 0 <= i < |lines| ==> '=' in lines[i] && Key(lines[i]) != Some(name))
          && (name == "user_name" ||
              (name == "text" && exists i :: 0 <= i < |lines| && Key(lines[i]) == Some("user_name")))
  {
    var lines := SplitLines(body);
    ParseFailsAtFirstBadLine(lines);
    if ParsePairs(lines).Success? {
      ParseKeys(lines);
    }
  }
}
