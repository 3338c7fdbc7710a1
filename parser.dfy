/**
 * bob.parser.Parser: cuts the arguments out of a command line whose
 * command word the caller has already recognised. The root Parser.java and
 * the inline parsing of the root Bob.java main loop do the same cuts with
 * the same messages; only the root parseIndex differs, in that it also
 * answers -1 when the input is shorter than the prefix.
 */
module Parser {
  import opened Options
  import opened Strings
  import opened DateTimeUtil

  /** A parse that either succeeds or throws IllegalArgumentException with a message. */
  datatype Outcome<T> = Success(value: T) | Failure(message: string)

  datatype DeadlineArgs = DeadlineArgs(description: string, due: string)

  datatype EventArgs = EventArgs(description: string, from: string, to: string)

  const MarkPrefix := "mark "
  const UnmarkPrefix := "unmark "
  const DeletePrefix := "delete "
  const TodoPrefix := "todo "
  const DeadlinePrefix := "deadline "
  const EventPrefix := "event "
  const FindPrefix := "find "
  const OnPrefix := "on "

  const MissingByMessage := "A deadline must have '/by <time>'"
  const DeadlineDescriptionMessage := "Add a description for your deadline task."
  const DeadlineTimeMessage := "The deadline time cannot be empty."
  const EventShapeMessage := "An event must have '/from <start> /to <end>'"
  const EventDescriptionMessage := "Add a description for your event."
  const EventTimeMessage := "The event start/end time cannot be empty."

  /** What follows the prefix, trimmed. */
  function Argument(input: string, prefix: string): string
    requires StartsWith(input, prefix)
  {
    Trim(input[|prefix|..])
  }

  /** Integer.parseInt of the trimmed number, minus one, or -1 when it does not parse. */
  function IndexOfNumber(numberPart: string): int {
    match ParseInt(numberPart)
    case Some(oneBased) => Int32Dec(oneBased)
    case None => -1
  }

  /**
   * parseIndex: the 1-based task number after the prefix, as a 0-based
   * index; -1 when there is no number. Any index other than -1 was read
   * from a number, and a non-negative one below Integer.MAX_VALUE from an
   * unsigned or '+'-signed number one greater.
   */
  function ParseIndex(input: string, prefix: string): (r: int)
    requires StartsWith(input, prefix)
    ensures IsInt32(r)
    ensures r != -1 ==> var m := Magnitude(Argument(input, prefix)); m != [] && AllDigits(m)
    ensures 0 <= r < MaxInt ==>
      var p := Argument(input, prefix); p != [] && p[0] != '-' && DigitsValue(Magnitude(p)) == r + 1
  {
    IndexOfNumber(Argument(input, prefix))
  }

  /** The root parseIndex: like parseIndex, and -1 when the input is shorter than the prefix. */
  function ParseIndexUnchecked(input: string, prefix: string): (r: int)
    ensures IsInt32(r)
    ensures |input| < |prefix| ==> r == -1
    ensures StartsWith(input, prefix) ==> r == ParseIndex(input, prefix)
  {
    if |input| < |prefix| then -1 else IndexOfNumber(Trim(input[|prefix|..]))
  }

  /** Task number n + 1, however padded, reads back as index n. */
  lemma ParseIndexRoundTrip(prefix: string, lead: string, n: nat, trail: string)
    requires n < MaxInt && AllTrimSpace(lead) && AllTrimSpace(trail)
    ensures ParseIndex(prefix + lead + NatToString(n + 1) + trail, prefix) == n
  {
    var input := prefix + lead + NatToString(n + 1) + trail;
    assert input[|prefix|..] == lead + NatToString(n + 1) + trail;
    TrimPadded(lead, NatToString(n + 1), trail);
    ParseIntOfNatToString(n + 1);
  }

  /** "mark -1" gives -2, which the caller must reject as an index. */
  lemma ParseIndexNegativeExample()
    ensures ParseIndex("mark -1", MarkPrefix) == -2
  {
    assert "mark -1"[5..] == "-1";
    assert IsTrimmed("-1");
    assert "-1"[1..] == "1" && "1"[..0] == [];
    assert DigitsValue("1") == 1;
    assert ParseInt("-1") == Some(-1);
  }

  /** Nothing after the prefix gives -1. */
  lemma ParseIndexEmptyExample()
    ensures ParseIndex("mark ", MarkPrefix) == -1
  {
    assert "mark "[5..] == [];
  }

  /** parseTodoDescription: the description after "todo ", trimmed; it may be empty. */
  function ParseTodoDescription(input: string): (r: string)
    requires StartsWith(input, TodoPrefix)
    ensures r == Argument(input, TodoPrefix)
    ensures IsTrimmed(r) && |r| <= |input| - |TodoPrefix|
  {
    TrimIsSlice(input[|TodoPrefix|..]);
    Argument(input, TodoPrefix)
  }

  /** parseFindKeyword: the keyword after "find ", trimmed; it may be empty. */
  function ParseFindKeyword(input: string): (r: string)
    requires StartsWith(input, FindPrefix)
    ensures r == Argument(input, FindPrefix)
    ensures IsTrimmed(r) && |r| <= |input| - |FindPrefix|
  {
    TrimIsSlice(input[|FindPrefix|..]);
    Argument(input, FindPrefix)
  }

  /** The argument after a prefix, padded with blanks on either side, is read back as written. */
  lemma ArgumentRoundTrip(prefix: string, lead: string, arg: string, trail: string)
    requires AllTrimSpace(lead) && IsTrimmed(arg) && arg != [] && AllTrimSpace(trail)
    ensures Argument(prefix + lead + arg + trail, prefix) == arg
  {
    assert (prefix + lead + arg + trail)[|prefix|..] == lead + arg + trail;
    TrimPadded(lead, arg, trail);
  }

  /** A prefix followed by blanks only has the empty argument. */
  lemma BlankArgument(prefix: string, blanks: string)
    requires AllTrimSpace(blanks)
    ensures Argument(prefix + blanks, prefix) == []
  {
    assert (prefix + blanks)[|prefix|..] == blanks;
    TrimAllSpace(blanks);
  }

  /**
   * parseDeadlineArgs: the description before the first "/by" and the time
   * after it, both trimmed; fails, in this order, without "/by", with an
   * empty description, with an empty time (DeadlineMessages).
   */
  function ParseDeadlineArgs(input: string): (r: Outcome<DeadlineArgs>)
    requires StartsWith(input, DeadlinePrefix)
    ensures r.Failure? ==> r.message in {MissingByMessage, DeadlineDescriptionMessage, DeadlineTimeMessage}
    ensures r == Failure(MissingByMessage) <==> !Contains(Argument(input, DeadlinePrefix), "/by")
    ensures r.Success? ==>
      r.value.description != [] && IsTrimmed(r.value.description) && !Contains(r.value.description, "/by") &&
      r.value.due != [] && IsTrimmed(r.value.due)
  {
    var rest := Argument(input, DeadlinePrefix);
    var byPos := IndexOf(rest, "/by");
    if byPos == -1 then Failure(MissingByMessage)
    else
      PrefixBeforeFirstLacks(rest, "/by", byPos);
      TrimLacks(rest[..byPos], "/by");
      DeadlineParts(rest, byPos)
  }

  /** The two trimmed parts around the "/by" at byPos, or which of them is empty. */
  function DeadlineParts(rest: string, byPos: nat): (r: Outcome<DeadlineArgs>)
    requires byPos + 3 <= |rest|
    ensures r.Failure? ==> r.message in {DeadlineDescriptionMessage, DeadlineTimeMessage}
    ensures r.Success? ==> r.value == DeadlineArgs(Trim(rest[..byPos]), Trim(rest[byPos + 3..]))
    ensures r.Success? <==> Trim(rest[..byPos]) != [] && Trim(rest[byPos + 3..]) != []
    ensures r == Failure(DeadlineDescriptionMessage) <==> Trim(rest[..byPos]) == []
    ensures r == Failure(DeadlineTimeMessage) <==> Trim(rest[..byPos]) != [] && Trim(rest[byPos + 3..]) == []
  {
    var desc := Trim(rest[..byPos]);
    var due := Trim(rest[byPos + 3..]);
    if desc == [] then Failure(DeadlineDescriptionMessage)
    else if due == [] then Failure(DeadlineTimeMessage)
    else Success(DeadlineArgs(desc, due))
  }

  /** How parseDeadlineArgs succeeds, in terms of the marker's position and the two trimmed parts. */
  lemma DeadlineSuccess(input: string, byPos: int, description: string, due: string)
    requires StartsWith(input, DeadlinePrefix)
    requires 0 <= byPos && IndexOf(Argument(input, DeadlinePrefix), "/by") == byPos
    requires byPos + 3 <= |Argument(input, DeadlinePrefix)|
    requires DeadlineParts(Argument(input, DeadlinePrefix), byPos) == Success(DeadlineArgs(description, due))
    ensures ParseDeadlineArgs(input) == Success(DeadlineArgs(description, due))
  {
  }

  /** The pieces of a marker preceded by one space: what comes before it and what follows it. */
  lemma AroundMarker(a: string, pat: string, c: string)
    ensures (a + " " + pat + c)[..|a|] == a
    ensures (a + " " + pat + c)[..|a| + 1] == a + " "
    ensures (a + " " + pat + c)[|a| + 1 + |pat|..] == c
  {
    var s := a + " " + pat + c;
    assert s == (a + " ") + (pat + c);
  }

  /** The trimmed text before a marker that follows a trimmed word and one space. */
  lemma TrimBeforeMarker(a: string, pat: string, c: string)
    requires a != [] && IsTrimmed(a)
    ensures Trim((a + " " + pat + c)[..|a| + 1]) == a
  {
    AroundMarker(a, pat, c);
    assert a + " " == [] + a + " ";
    TrimPadded([], a, " ");
  }

  /** The trimmed text after a marker followed by one space and a trimmed word. */
  lemma TrimAfterMarker(a: string, pat: string, c: string)
    requires c != [] && IsTrimmed(c)
    ensures Trim((a + " " + pat + (" " + c))[|a| + 1 + |pat|..]) == c
  {
    AroundMarker(a, pat, " " + c);
    assert " " + c == " " + c + [];
    TrimPadded(" ", c, []);
  }

  /** How the two-part split succeeds, in terms of the two trimmed parts. */
  lemma DeadlinePartsSuccess(rest: string, byPos: nat, description: string, due: string)
    requires byPos + 3 <= |rest|
    requires Trim(rest[..byPos]) == description != [] && Trim(rest[byPos + 3..]) == due != []
    ensures DeadlineParts(rest, byPos) == Success(DeadlineArgs(description, due))
  {
  }

  /** The parts around the "/by" of a written deadline line. */
  lemma DeadlineLineParts(description: string, due: string)
    requires description != [] && IsTrimmed(description) && due != [] && IsTrimmed(due)
    ensures var rest := description + " " + "/by" + (" " + due);
      DeadlineParts(rest, |description| + 1) == Success(DeadlineArgs(description, due))
  {
    var rest := description + " " + "/by" + (" " + due);
    TrimBeforeMarker(description, "/by", " " + due);
    TrimAfterMarker(description, "/by", due);
    DeadlinePartsSuccess(rest, |description| + 1, description, due);
  }

  /** The written deadline line, after its command word. */
  lemma DeadlineLineArgument(description: string, due: string)
    requires description != [] && IsTrimmed(description) && due != [] && IsTrimmed(due)
    ensures Argument(DeadlinePrefix + description + " /by " + due, DeadlinePrefix) ==
      description + " " + "/by" + (" " + due)
  {
    var rest := description + " " + "/by" + (" " + due);
    assert DeadlinePrefix + description + " /by " + due == DeadlinePrefix + [] + rest + [];
    assert rest[0] == description[0] && rest[|rest| - 1] == due[|due| - 1];
    ArgumentRoundTrip(DeadlinePrefix, [], rest, []);
  }

  /** A string begins with whatever was put in front of it. */
  lemma PrefixStarts(prefix: string, s: string)
    ensures StartsWith(prefix + s, prefix)
  {
    assert (prefix + s)[..|prefix|] == prefix;
  }

  /** parseDeadlineArgs, once the line's argument, marker and parts are known. */
  lemma DeadlineFromPieces(input: string, rest: string, description: string, due: string)
    requires StartsWith(input, DeadlinePrefix) && Argument(input, DeadlinePrefix) == rest
    requires IndexOf(rest, "/by") == |description| + 1
    requires DeadlineParts(rest, |description| + 1) == Success(DeadlineArgs(description, due))
    ensures ParseDeadlineArgs(input) == Success(DeadlineArgs(description, due))
  {
    DeadlineSuccess(input, |description| + 1, description, due);
  }

  /** Text around a marker written with one space on either side. */
  lemma SpacedMarker(a: string, marker: string, spaced: string, c: string)
    requires spaced == " " + marker + " "
    ensures a + spaced + c == a + " " + marker + (" " + c)
  {
  }

  /** "deadline <description> /by <time>" is read back as written. */
  lemma DeadlineArgsRoundTrip(description: string, due: string)
    requires description != [] && IsTrimmed(description) && !Contains(description, "/by")
    requires due != [] && IsTrimmed(due)
    ensures ParseDeadlineArgs(DeadlinePrefix + description + " /by " + due) == Success(DeadlineArgs(description, due))
  {
    var input := DeadlinePrefix + description + " /by " + due;
    var rest := description + " " + "/by" + (" " + due);
    assert StartsWith(input, DeadlinePrefix) by {
      assert input == DeadlinePrefix + (description + " /by " + due);
      PrefixStarts(DeadlinePrefix, description + " /by " + due);
    }
    assert Argument(input, DeadlinePrefix) == rest by {
      DeadlineLineArgument(description, due);
    }
    assert IndexOf(rest, "/by") == |description| + 1 by {
      IndexAfterGap(description, "/by", " " + due);
    }
    assert DeadlineParts(rest, |description| + 1) == Success(DeadlineArgs(description, due)) by {
      DeadlineLineParts(description, due);
    }
    DeadlineFromPieces(input, rest, description, due);
  }

  /** parseDeadlineArgs once the first "/by" is found: the split around it. */
  lemma DeadlineAt(input: string, byPos: int)
    requires StartsWith(input, DeadlinePrefix)
    requires 0 <= byPos && IndexOf(Argument(input, DeadlinePrefix), "/by") == byPos
    ensures byPos + 3 <= |Argument(input, DeadlinePrefix)|
    ensures ParseDeadlineArgs(input) == DeadlineParts(Argument(input, DeadlinePrefix), byPos)
  {
  }

  /**
   * Once "/by" is found, an empty description is reported, and only a
   * non-empty description with an empty time gets the time message.
   */
  lemma DeadlineMessages(input: string, byPos: int)
    requires StartsWith(input, DeadlinePrefix)
    requires 0 <= byPos && IndexOf(Argument(input, DeadlinePrefix), "/by") == byPos
    ensures var rest := Argument(input, DeadlinePrefix);
      byPos + 3 <= |rest| &&
      (ParseDeadlineArgs(input) == Failure(DeadlineDescriptionMessage) <==> Trim(rest[..byPos]) == []) &&
      (ParseDeadlineArgs(input) == Failure(DeadlineTimeMessage) <==>
        Trim(rest[..byPos]) != [] && Trim(rest[byPos + 3..]) == [])
  {
    DeadlineAt(input, byPos);
  }

  /** The split of "<description> /by" fails on its empty time. */
  lemma EmptyTimeParts(description: string)
    requires description != [] && IsTrimmed(description)
    ensures DeadlineParts(description + " " + "/by" + [], |description| + 1) == Failure(DeadlineTimeMessage)
  {
    var rest := description + " " + "/by" + [];
    assert Trim(rest[..|description| + 1]) == description by {
      assert rest[..|description| + 1] == description + " ";
      TrimPadded([], description, " ");
    }
    assert rest[|description| + 4..] == [];
  }

  /** A deadline whose "/by" ends the line fails on its empty time. */
  lemma DeadlineWithoutTime(description: string)
    requires description != [] && IsTrimmed(description) && !Contains(description, "/by")
    ensures ParseDeadlineArgs(DeadlinePrefix + description + " /by") == Failure(DeadlineTimeMessage)
  {
    var input := DeadlinePrefix + description + " /by";
    var rest := description + " " + "/by" + [];
    assert StartsWith(input, DeadlinePrefix) && Argument(input, DeadlinePrefix) == rest by {
      assert input == DeadlinePrefix + [] + rest + [];
      ArgumentRoundTrip(DeadlinePrefix, [], rest, []);
    }
    assert IndexOf(rest, "/by") == |description| + 1 by {
      IndexAfterGap(description, "/by", []);
    }
    EmptyTimeParts(description);
    DeadlineAt(input, |description| + 1);
  }

  /** A "/to" that does not come before a "/from" comes at least five characters after it. */
  lemma MarkersApart(s: string, fromPos: int, toPos: int)
    requires OccursAt(s, "/from", fromPos) && OccursAt(s, "/to", toPos) && fromPos <= toPos
    ensures fromPos + 5 <= toPos
  {
    assert s[fromPos..fromPos + 5] == "/from";
    assert forall k :: fromPos <= k < fromPos + 5 ==> s[k] == s[fromPos..fromPos + 5][k - fromPos];
    assert s[toPos..toPos + 3] == "/to";
    assert s[toPos] == '/' && s[toPos + 1] == 't';
  }

  /**
   * parseEventArgs: the description before the first "/from", the start
   * between it and the first "/to", the end after that, all trimmed; fails,
   * in this order, when either marker is missing or "/to" comes first, with
   * an empty description, with an empty start or end (EventMessages).
   */
  function ParseEventArgs(input: string): (r: Outcome<EventArgs>)
    requires StartsWith(input, EventPrefix)
    ensures r.Failure? ==> r.message in {EventShapeMessage, EventDescriptionMessage, EventTimeMessage}
    ensures var rest := Argument(input, EventPrefix);
      r == Failure(EventShapeMessage) <==>
        !Contains(rest, "/from") || !Contains(rest, "/to") || IndexOf(rest, "/to") < IndexOf(rest, "/from")
    ensures r.Success? ==> WellFormedEvent(r.value)
  {
    var rest := Argument(input, EventPrefix);
    EventArgumentsMessages(rest);
    EventArgumentsShape(rest);
    EventArgumentsWellFormed(rest);
    EventArguments(rest)
  }

  /** What parseEventArgs promises of a successful parse: three non-empty trimmed parts, each free of the markers after it. */
  predicate WellFormedEvent(a: EventArgs) {
    a.description != [] && IsTrimmed(a.description) &&
    !Contains(a.description, "/from") && !Contains(a.description, "/to") &&
    a.from != [] && IsTrimmed(a.from) && !Contains(a.from, "/to") &&
    a.to != [] && IsTrimmed(a.to)
  }

  /** parseEventArgs on the text after "event ". */
  function EventArguments(rest: string): Outcome<EventArgs> {
    var fromPos := IndexOf(rest, "/from");
    var toPos := IndexOf(rest, "/to");
    if fromPos == -1 || toPos == -1 || toPos < fromPos then Failure(EventShapeMessage)
    else
      MarkersApart(rest, fromPos, toPos);
      EventParts(rest, fromPos, toPos)
  }

  lemma EventArgumentsMessages(rest: string)
    ensures var r := EventArguments(rest);
      r.Failure? ==> r.message in {EventShapeMessage, EventDescriptionMessage, EventTimeMessage}
  {
  }

  lemma EventArgumentsShape(rest: string)
    ensures EventArguments(rest) == Failure(EventShapeMessage) <==>
      !Contains(rest, "/from") || !Contains(rest, "/to") || IndexOf(rest, "/to") < IndexOf(rest, "/from")
  {
  }

  lemma EventArgumentsWellFormed(rest: string)
    ensures EventArguments(rest).Success? ==> WellFormedEvent(EventArguments(rest).value)
  {
    var fromPos := IndexOf(rest, "/from");
    var toPos := IndexOf(rest, "/to");
    if fromPos != -1 && toPos != -1 && fromPos <= toPos {
      MarkersApart(rest, fromPos, toPos);
      EventPartsWellFormed(rest, fromPos, toPos);
    }
  }

  /** The parts read around the first "/from" and the first "/to" after it are well formed. */
  lemma EventPartsWellFormed(rest: string, fromPos: int, toPos: int)
    requires fromPos == IndexOf(rest, "/from") && toPos == IndexOf(rest, "/to") && 0 <= fromPos && fromPos + 5 <= toPos
    ensures toPos + 3 <= |rest|
    ensures EventParts(rest, fromPos, toPos).Success? ==> WellFormedEvent(EventParts(rest, fromPos, toPos).value)
  {
    assert OccursAt(rest, "/to", toPos);
    EventPartsLack(rest, fromPos, toPos);
  }

  /** The three trimmed parts around the "/from" at fromPos and the "/to" at toPos, or which of them is empty. */
  function EventParts(rest: string, fromPos: nat, toPos: nat): (r: Outcome<EventArgs>)
    requires fromPos + 5 <= toPos && toPos + 3 <= |rest|
    ensures r.Failure? ==> r.message in {EventDescriptionMessage, EventTimeMessage}
    ensures r.Success? ==>
      r.value == EventArgs(Trim(rest[..fromPos]), Trim(rest[fromPos + 5..toPos]), Trim(rest[toPos + 3..]))
    ensures r.Success? <==>
      Trim(rest[..fromPos]) != [] && Trim(rest[fromPos + 5..toPos]) != [] && Trim(rest[toPos + 3..]) != []
    ensures r == Failure(EventDescriptionMessage) <==> Trim(rest[..fromPos]) == []
    ensures r == Failure(EventTimeMessage) <==>
      Trim(rest[..fromPos]) != [] && (Trim(rest[fromPos + 5..toPos]) == [] || Trim(rest[toPos + 3..]) == [])
  {
    var desc := Trim(rest[..fromPos]);
    var from := Trim(rest[fromPos + 5..toPos]);
    var to := Trim(rest[toPos + 3..]);
    if desc == [] then Failure(EventDescriptionMessage)
    else if from == [] || to == [] then Failure(EventTimeMessage)
    else Success(EventArgs(desc, from, to))
  }

  /**
   * Once both markers are found in order, an empty description is reported
   * first, and only a non-empty description with an empty start or end gets
   * the time message.
   */
  lemma EventMessages(input: string, fromPos: int, toPos: int)
    requires StartsWith(input, EventPrefix)
    requires var rest := Argument(input, EventPrefix);
      0 <= fromPos <= toPos && IndexOf(rest, "/from") == fromPos && IndexOf(rest, "/to") == toPos
    ensures var rest := Argument(input, EventPrefix);
      fromPos + 5 <= toPos && toPos + 3 <= |rest| &&
      (ParseEventArgs(input) == Failure(EventDescriptionMessage) <==> Trim(rest[..fromPos]) == []) &&
      (ParseEventArgs(input) == Failure(EventTimeMessage) <==>
        Trim(rest[..fromPos]) != [] && (Trim(rest[fromPos + 5..toPos]) == [] || Trim(rest[toPos + 3..]) == []))
  {
    var rest := Argument(input, EventPrefix);
    assert OccursAt(rest, "/from", fromPos) && OccursAt(rest, "/to", toPos);
    MarkersApart(rest, fromPos, toPos);
    assert ParseEventArgs(input) == EventArguments(rest);
    assert EventArguments(rest) == EventParts(rest, fromPos, toPos);
  }

  /** Neither marker occurs in the description, and "/to" does not occur in the start. */
  lemma EventPartsLack(rest: string, fromPos: int, toPos: int)
    requires fromPos == IndexOf(rest, "/from") && toPos == IndexOf(rest, "/to") && 0 <= fromPos && fromPos + 5 <= toPos
    ensures !Contains(Trim(rest[..fromPos]), "/from") && !Contains(Trim(rest[..fromPos]), "/to")
    ensures !Contains(Trim(rest[fromPos + 5..toPos]), "/to")
  {
    assert OccursAt(rest, "/to", toPos);
    var head := rest[..toPos];
    PrefixBeforeFirstLacks(rest, "/from", fromPos);
    TrimLacks(rest[..fromPos], "/from");
    PrefixBeforeFirstLacks(rest, "/to", toPos);
    SliceLacks(head, "/to", 0, fromPos);
    assert head[0..fromPos] == rest[..fromPos];
    TrimLacks(rest[..fromPos], "/to");
    SliceLacks(head, "/to", fromPos + 5, toPos);
    assert head[fromPos + 5..toPos] == rest[fromPos + 5..toPos];
    TrimLacks(rest[fromPos + 5..toPos], "/to");
  }

  /** How parseEventArgs succeeds, in terms of the markers' positions and the three trimmed parts. */
  lemma EventSuccess(input: string, fromPos: int, toPos: int, description: string, from: string, to: string)
    requires StartsWith(input, EventPrefix)
    requires 0 <= fromPos && IndexOf(Argument(input, EventPrefix), "/from") == fromPos
    requires fromPos + 5 <= toPos && IndexOf(Argument(input, EventPrefix), "/to") == toPos
    requires toPos + 3 <= |Argument(input, EventPrefix)|
    requires EventParts(Argument(input, EventPrefix), fromPos, toPos) == Success(EventArgs(description, from, to))
    ensures ParseEventArgs(input) == Success(EventArgs(description, from, to))
  {
  }

  /** "/from" does not contain "/to". */
  lemma FromMarkerLacksTo()
    ensures !Contains("/from", "/to")
  {
    forall k ensures !OccursAt("/from", "/to", k) {
      if 0 <= k && k + 3 <= 5 {
        var w := "/from"[k..k + 3];
        assert w[1] == "/from"[k + 1];
        assert "/from"[1] == 'f' && "/from"[2] == 'r' && "/from"[3] == 'o';
      }
    }
  }

  /** A written event line: head holds the description and the start, rest the whole argument. */
  predicate EventLine(description: string, from: string, to: string, head: string, rest: string) {
    head == description + " " + "/from" + (" " + from) && rest == head + " " + "/to" + (" " + to)
  }

  /** The first "/from" and the first "/to" of a written event line. */
  lemma EventLineMarkers(description: string, from: string, to: string, head: string, rest: string)
    requires EventLine(description, from, to, head, rest)
    requires !Contains(description, "/from") && !Contains(description, "/to") && !Contains(from, "/to")
    ensures IndexOf(rest, "/from") == |description| + 1 && IndexOf(rest, "/to") == |head| + 1
  {
    assert rest == description + " " + "/from" + (" " + from + " " + "/to" + " " + to);
    IndexAfterGap(description, "/from", " " + from + " " + "/to" + " " + to);
    FromMarkerLacksTo();
    JoinLacks("/from", from, "/to");
    assert head == description + " " + ("/from" + " " + from);
    JoinLacks(description, "/from" + " " + from, "/to");
    IndexAfterGap(head, "/to", " " + to);
  }

  lemma EventLineDescription(description: string, from: string, to: string, head: string, rest: string)
    requires EventLine(description, from, to, head, rest) && description != [] && IsTrimmed(description)
    ensures Trim(rest[..|description| + 1]) == description
  {
    AroundMarker(head, "/to", " " + to);
    assert rest[..|description| + 1] == head[..|description| + 1];
    TrimBeforeMarker(description, "/from", " " + from);
  }

  lemma EventLineStart(description: string, from: string, to: string, head: string, rest: string)
    requires EventLine(description, from, to, head, rest) && from != [] && IsTrimmed(from)
    ensures |description| + 6 <= |head| + 1 <= |rest|
    ensures Trim(rest[|description| + 6..|head| + 1]) == from
  {
    AroundMarker(head, "/to", " " + to);
    AroundMarker(description, "/from", " " + from);
    assert rest[|description| + 6..|head| + 1] == (head + " ")[|description| + 6..];
    assert (head + " ")[|description| + 6..] == head[|description| + 6..] + " ";
    TrimPadded(" ", from, " ");
  }

  lemma EventLineEnd(description: string, from: string, to: string, head: string, rest: string)
    requires EventLine(description, from, to, head, rest) && to != [] && IsTrimmed(to)
    ensures |head| + 4 <= |rest|
    ensures Trim(rest[|head| + 4..]) == to
  {
    TrimAfterMarker(head, "/to", to);
  }

  /** How the three-part split succeeds, in terms of the three trimmed parts. */
  lemma EventPartsSuccess(rest: string, fromPos: nat, toPos: nat, description: string, from: string, to: string)
    requires fromPos + 5 <= toPos && toPos + 3 <= |rest|
    requires Trim(rest[..fromPos]) == description != []
    requires Trim(rest[fromPos + 5..toPos]) == from != []
    requires Trim(rest[toPos + 3..]) == to != []
    ensures EventParts(rest, fromPos, toPos) == Success(EventArgs(description, from, to))
  {
  }

  /** The three parts of a written event line. */
  lemma EventLineParts(description: string, from: string, to: string, head: string, rest: string)
    requires EventLine(description, from, to, head, rest)
    requires description != [] && IsTrimmed(description) && from != [] && IsTrimmed(from) && to != [] && IsTrimmed(to)
    ensures |head| + 4 <= |rest|
    ensures EventParts(rest, |description| + 1, |head| + 1) == Success(EventArgs(description, from, to))
  {
    var fromPos, toPos := |description| + 1, |head| + 1;
    assert Trim(rest[..fromPos]) == description by {
      EventLineDescription(description, from, to, head, rest);
    }
    assert fromPos + 5 <= toPos && Trim(rest[fromPos + 5..toPos]) == from by {
      EventLineStart(description, from, to, head, rest);
    }
    assert toPos + 3 <= |rest| && Trim(rest[toPos + 3..]) == to by {
      EventLineEnd(description, from, to, head, rest);
    }
    EventPartsSuccess(rest, fromPos, toPos, description, from, to);
  }

  /** The written event line, after its command word. */
  lemma EventLineArgument(description: string, from: string, to: string, head: string, rest: string)
    requires EventLine(description, from, to, head, rest)
    requires description != [] && IsTrimmed(description) && to != [] && IsTrimmed(to)
    ensures StartsWith(EventPrefix + description + " /from " + from + " /to " + to, EventPrefix)
    ensures Argument(EventPrefix + description + " /from " + from + " /to " + to, EventPrefix) == rest
  {
    var tail := description + " /from " + from + " /to " + to;
    var input := EventPrefix + description + " /from " + from + " /to " + to;
    assert tail == rest by {
      SpacedMarker(description, "/from", " /from ", from);
      SpacedMarker(description + " /from " + from, "/to", " /to ", to);
    }
    assert input == EventPrefix + [] + rest + [];
    assert rest[0] == description[0] && rest[|rest| - 1] == to[|to| - 1];
    ArgumentRoundTrip(EventPrefix, [], rest, []);
  }

  /** parseEventArgs, once the line's argument, markers and parts are known. */
  lemma EventFromPieces(input: string, rest: string, fromPos: nat, toPos: nat, description: string, from: string, to: string)
    requires StartsWith(input, EventPrefix) && Argument(input, EventPrefix) == rest
    requires IndexOf(rest, "/from") == fromPos && IndexOf(rest, "/to") == toPos
    requires fromPos + 5 <= toPos && toPos + 3 <= |rest|
    requires EventParts(rest, fromPos, toPos) == Success(EventArgs(description, from, to))
    ensures ParseEventArgs(input) == Success(EventArgs(description, from, to))
  {
    EventSuccess(input, fromPos, toPos, description, from, to);
  }

  /** "event <description> /from <start> /to <end>" is read back as written. */
  lemma EventArgsRoundTrip(description: string, from: string, to: string)
    requires description != [] && IsTrimmed(description)
    requires !Contains(description, "/from") && !Contains(description, "/to")
    requires from != [] && IsTrimmed(from) && !Contains(from, "/to")
    requires to != [] && IsTrimmed(to)
    ensures ParseEventArgs(EventPrefix + description + " /from " + from + " /to " + to) ==
      Success(EventArgs(description, from, to))
  {
    var head := description + " " + "/from" + (" " + from);
    var rest := head + " " + "/to" + (" " + to);
    EventLineArgument(description, from, to, head, rest);
    EventLineMarkers(description, from, to, head, rest);
    EventLineParts(description, from, to, head, rest);
    EventFromPieces(EventPrefix + description + " /from " + from + " /to " + to, rest,
      |description| + 1, |head| + 1, description, from, to);
  }

  /**
   * parseOnDate: the trimmed argument read with the pattern yyyy-MM-dd;
   * None stands for the DateTimeParseException.
   */
  function ParseOnDate(input: string): (r: Option<Date>)
    requires StartsWith(input, OnPrefix)
    ensures r.Some? ==> ValidDate(r.value) && |Argument(input, OnPrefix)| == 10
    ensures r.Some? ==> Argument(input, OnPrefix) == FormatIsoDate(r.value)
  {
    var arg := Argument(input, OnPrefix);
    var r := ParseIsoDate(arg);
    assert r.Some? ==> arg == FormatIsoDate(r.value) by {
      if r.Some? {
        IsoDateCanonical(arg);
      }
    }
    r
  }

  /** Every valid date written as yyyy-MM-dd after "on " is read back. */
  lemma OnDateRoundTrip(d: Date, lead: string, trail: string)
    requires ValidDate(d) && AllTrimSpace(lead) && AllTrimSpace(trail)
    ensures ParseOnDate(OnPrefix + lead + FormatIsoDate(d) + trail) == Some(d)
  {
    var s := FormatIsoDate(d);
    assert IsTrimmed(s) by {
      assert ParseIsoDate(s).Some?;
      assert s[0] == s[..4][0] && s[9] == s[8..][1];
    }
    ArgumentRoundTrip(OnPrefix, lead, s, trail);
  }

  /** A day-first date such as 15-01-2025 is refused. */
  lemma OnDateDayFirstExample()
    ensures ParseOnDate("on 15-01-2025") == None
  {
    assert "on 15-01-2025"[3..] == "15-01-2025";
    assert Trim("15-01-2025") == "15-01-2025";
  }
}
