/** The chat input line (`input.rs`): a line starting with '/' is a command, anything
    else is sent as a message. */
module Inputs {
  import opened Wrappers
  import opened Text

  datatype Input =
    | Join(channel: string)
    | Part(channel: string)
    | Send(data: string)
    | Usage(cmd: string, message: string)
    | Unknown(data: string)

  const JoinUsage := Usage("/join", "syntax: /join channel")
  const PartUsage := Usage("/part", "syntax: /part channel")

  /** The words that name the join and the part command. */
  predicate IsJoinWord(head: string) {
    head == "join" || head == "enter"
  }

  predicate IsPartWord(head: string) {
    head == "part" || head == "leave"
  }

  /** `parse`: the word after '/' up to the first space picks the command; the rest of the
      line is its argument. */
  function Parse(input: string): (r: Input)
    ensures r.Send? <==> !StartsWith(input, "/")
    ensures r.Send? || r.Unknown? ==> r.data == input
  {
    if !(|input| > 0 && input[0] == '/') then
      Send(input)
    else
      assert StartsWith(input, "/") by { assert input[..1] == "/"; }
      match SplitOnce(input[1..], ' ')
      case Some((head, rest)) => Dispatch(head, rest, input)
      case None => Unknown(input)
  }

  /** The command `head` picks, with `rest` as its argument. */
  function Dispatch(head: string, rest: string, input: string): Input {
    if IsJoinWord(head) then
      if rest == [] then JoinUsage else Join(rest)
    else if IsPartWord(head) then
      if rest == [] then PartUsage else Part(rest)
    else
      Unknown(input)
  }

  /** The line that runs command `word` on `arg`: "/word arg". */
  function CommandLine(word: string, arg: string): string {
    "/" + word + " " + arg
  }

  /** A line "/head rest" whose head has no space is dispatched on that head. */
  lemma ParseHead(head: string, rest: string)
    requires ' ' !in head
    ensures Parse(CommandLine(head, rest)) == Dispatch(head, rest, CommandLine(head, rest))
  {
    SplitOnceAtFirst(head, ' ', rest);
    assert ("/" + head + " " + rest)[1..] == head + [' '] + rest;
  }

  /** What a command result says about the line: the head word picked it and the rest of
      the line is its channel, or was empty for a usage message. */
  ghost predicate Shaped(input: string, r: Input) {
    && (r.Join? ==> r.channel != [] && exists h :: IsJoinWord(h) && input == CommandLine(h, r.channel))
    && (r.Part? ==> r.channel != [] && exists h :: IsPartWord(h) && input == CommandLine(h, r.channel))
    && (r == JoinUsage ==> exists h :: IsJoinWord(h) && input == CommandLine(h, []))
    && (r == PartUsage ==> exists h :: IsPartWord(h) && input == CommandLine(h, []))
    && (r.Usage? ==> r == JoinUsage || r == PartUsage)
  }

  /** Every result of `parse` has the shape of the line that gave it. */
  lemma ParseShape(input: string)
    ensures Shaped(input, Parse(input))
  {
    if |input| > 0 && input[0] == '/' {
      assert input == "/" + input[1..];
      match SplitOnce(input[1..], ' ')
      case Some((head, rest)) =>
        assert input == CommandLine(head, rest);
        DispatchShape(head, rest, input);
      case None =>
    }
  }

  lemma DispatchShape(head: string, rest: string, input: string)
    requires input == CommandLine(head, rest)
    ensures Shaped(input, Dispatch(head, rest, input))
  {
    assert JoinUsage != PartUsage;
  }

  /** The command line that asks for `i`: what the user types to join, part or send. */
  function Command(i: Input): string
    requires i.Join? || i.Part? || i.Send?
  {
    match i
    case Join(c) => CommandLine("join", c)
    case Part(c) => CommandLine("part", c)
    case Send(d) => d
  }

  /** "/join c" and "/enter c" join `c`, or give the join usage when `c` is empty. */
  lemma ParseJoinWord(h: string, c: string)
    requires IsJoinWord(h)
    ensures Parse(CommandLine(h, c)) == (if c == [] then JoinUsage else Join(c))
  {
    ParseHead(h, c);
  }

  /** The two command families do not share a word. */
  lemma PartWordsAreNotJoinWords()
    ensures !IsJoinWord("part") && !IsJoinWord("leave")
  {
    assert "part"[0] != "join"[0] && |"part"| != |"enter"|;
    assert "leave"[0] != "enter"[0] && |"leave"| != |"join"|;
  }

  /** "/part c" and "/leave c" part `c`, or give the part usage when `c` is empty. */
  lemma ParsePartWord(h: string, c: string)
    requires IsPartWord(h)
    ensures Parse(CommandLine(h, c)) == (if c == [] then PartUsage else Part(c))
  {
    ParseHead(h, c);
    PartWordsAreNotJoinWords();
  }

  /** Typing the command for a join, part or plain message gives it back, when the channel is
      named and the message is not itself a command. */
  lemma ParseCommand(i: Input)
    requires i.Join? || i.Part? || i.Send?
    requires i.Join? || i.Part? ==> i.channel != []
    requires i.Send? ==> !StartsWith(i.data, "/")
    ensures Parse(Command(i)) == i
  {
    match i
    case Join(c) => ParseJoinWord("join", c);
    case Part(c) => ParsePartWord("part", c);
    case Send(_) =>
  }

  /** A command word with no space after it is not a command: "/join" alone is unknown. */
  lemma ParseBareCommand(word: string)
    requires ' ' !in word
    ensures Parse("/" + word) == Unknown("/" + word)
  {
    assert ("/" + word)[1..] == word;
  }
}
