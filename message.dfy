/** A chat line as the views show it (`state/message.rs`): the text of a PRIVMSG cut into
    plain text, emote and link spans, with the emote names it mentions recorded in the
    emote map. */
module Messages {
  import opened Wrappers
  import opened Maps
  import Str = Text
  import Emotes

  datatype Span = Text(text: string) | Emote(id: string, name: string) | Url(url: string)

  /** A span of the trimmed text by position: a link or a run of plain text. */
  datatype Piece = Piece(url: bool, lo: nat, hi: nat)

  datatype Uuid = Uuid(value: nat)
  datatype Color = Color(r: nat, g: nat, b: nat)
  datatype MessageOpts = MessageOpts(isOld: bool, isLocal: bool)

  /** An emote tag of a PRIVMSG: the emote's id and name and its position in the text. */
  datatype EmoteTag = EmoteTag(id: string, name: string, start: nat, end: nat)

  /** The parts of a parsed PRIVMSG that a message is built from. */
  datatype Privmsg = Privmsg(
    sender: string,
    data: string,
    emotes: seq<EmoteTag>,
    msgId: Option<string>,
    color: Option<Color>,
    badges: seq<(string, string)>)

  datatype Message = Message(
    id: Option<Uuid>,
    sender: string,
    color: Color,
    badges: seq<(string, string)>,
    data: string,
    spans: seq<Span>,
    opts: MessageOpts)

  // ------------------------------------------------------------------ pieces

  function SpanOf(t: string, p: Piece): Span
    requires p.lo <= p.hi <= |t|
  {
    if p.url then Url(t[p.lo..p.hi]) else Text(t[p.lo..p.hi])
  }

  predicate InBounds(t: string, ps: seq<Piece>) {
    forall i :: 0 <= i < |ps| ==> ps[i].lo <= ps[i].hi <= |t|
  }

  /** The spans the pieces stand for, one for one. */
  function SpansOf(t: string, ps: seq<Piece>): (r: seq<Span>)
    requires InBounds(t, ps)
    ensures |r| == |ps|
  {
    if ps == [] then [] else [SpanOf(t, ps[0])] + SpansOf(t, ps[1..])
  }

  lemma {:induction false} SpansOfAppend(t: string, a: seq<Piece>, b: seq<Piece>)
    requires InBounds(t, a) && InBounds(t, b)
    ensures InBounds(t, a + b)
    ensures SpansOf(t, a + b) == SpansOf(t, a) + SpansOf(t, b)
    decreases |a|
  {
    if a == [] {
      assert a + b == b;
    } else {
      assert (a + b)[1..] == a[1..] + b;
      SpansOfAppend(t, a[1..], b);
      assert SpansOf(t, a + b) == [SpanOf(t, a[0])] + (SpansOf(t, a[1..]) + SpansOf(t, b));
      Associate([SpanOf(t, a[0])], SpansOf(t, a[1..]), SpansOf(t, b));
    }
  }

  /** Index `j` lies inside one of the pieces. */
  predicate Covered(ps: seq<Piece>, j: nat) {
    exists i :: 0 <= i < |ps| && ps[i].lo <= j < ps[i].hi
  }

  /** The intended reading of `parse_text` over the words `ws` of `t`, from word `k` with
      plain text pending from `cursor`: a link word becomes a link piece; a word followed
      by a link closes the pending text at the word's end; the text after the last link
      is one trailing piece. Positions are the words' true positions in `t`. */
  function PiecesFrom(t: string, ws: seq<(nat, nat)>, urls: iset<string>, k: nat, cursor: nat)
    : (ps: seq<Piece>)
    requires Str.Ordered(t, 0, ws)
    requires k <= |ws| && cursor <= |t|
    requires k < |ws| ==> cursor <= ws[k].0
    ensures InBounds(t, ps)
    decreases |ws| - k
  {
    if k == |ws| then
      if cursor < |t| then [Piece(false, cursor, |t|)] else []
    else if Str.Word(t, ws, k) in urls then
      var next := if k + 1 < |ws| then ws[k + 1].0 else |t|;
      var rest := PiecesFrom(t, ws, urls, k + 1, next);
      [Piece(true, ws[k].0, ws[k].1)] + rest
    else if k + 1 < |ws| && Str.Word(t, ws, k + 1) in urls then
      var rest := PiecesFrom(t, ws, urls, k + 1, ws[k + 1].0);
      [Piece(false, cursor, ws[k].1)] + rest
    else
      PiecesFrom(t, ws, urls, k + 1, cursor)
  }

  /** `parse_text` as intended: the spans of the trimmed input. */
  function TextSpans(input: string, urls: iset<string>): seq<Span> {
    var t := Str.Trim(input);
    SpansOf(t, PiecesFrom(t, Str.WordsFrom(t, 0), urls, 0, 0))
  }

  /** Pieces after `cursor`, not empty and not overlapping. */
  predicate InOrderFrom(ps: seq<Piece>, cursor: nat) {
    && (forall i :: 0 <= i < |ps| ==> cursor <= ps[i].lo < ps[i].hi)
    && (forall a, b :: 0 <= a < b < |ps| ==> ps[a].hi <= ps[b].lo)
  }

  lemma ConsInOrder(p: Piece, rest: seq<Piece>, cursor: nat, next: nat)
    requires cursor <= p.lo < p.hi <= next
    requires InOrderFrom(rest, next)
    ensures InOrderFrom([p] + rest, cursor)
  {
    var ps := [p] + rest;
    forall a, b | 0 <= a < b < |ps| ensures ps[a].hi <= ps[b].lo {
      assert ps[b] == rest[b - 1];
      if a > 0 {
        assert ps[a] == rest[a - 1];
      }
    }
  }

  /** The pieces lie after `cursor`, are not empty and do not overlap. */
  lemma {:induction false} PiecesInOrder(
    t: string, ws: seq<(nat, nat)>, urls: iset<string>, k: nat, cursor: nat)
    requires Str.Ordered(t, 0, ws)
    requires k <= |ws| && cursor <= |t|
    requires k < |ws| ==> cursor <= ws[k].0
    ensures InOrderFrom(PiecesFrom(t, ws, urls, k, cursor), cursor)
    decreases |ws| - k
  {
    if k < |ws| {
      if Str.Word(t, ws, k) in urls {
        var next := if k + 1 < |ws| then ws[k + 1].0 else |t|;
        PiecesInOrder(t, ws, urls, k + 1, next);
        LinkTurnInOrder(t, ws, urls, k, cursor);
      } else if k + 1 < |ws| && Str.Word(t, ws, k + 1) in urls {
        PiecesInOrder(t, ws, urls, k + 1, ws[k + 1].0);
        TextTurnInOrder(t, ws, urls, k, cursor);
      } else {
        PiecesInOrder(t, ws, urls, k + 1, cursor);
      }
    }
  }

  /** A link word puts its piece in front of the pieces after it. */
  lemma LinkTurnInOrder(t: string, ws: seq<(nat, nat)>, urls: iset<string>, k: nat, cursor: nat)
    requires Str.Ordered(t, 0, ws)
    requires k < |ws| && cursor <= ws[k].0 && Str.Word(t, ws, k) in urls
    requires var next := if k + 1 < |ws| then ws[k + 1].0 else |t|;
      InOrderFrom(PiecesFrom(t, ws, urls, k + 1, next), next)
    ensures InOrderFrom(PiecesFrom(t, ws, urls, k, cursor), cursor)
  {
    var next := if k + 1 < |ws| then ws[k + 1].0 else |t|;
    ConsInOrder(Piece(true, ws[k].0, ws[k].1), PiecesFrom(t, ws, urls, k + 1, next), cursor, next);
  }

  /** A word before a link closes the pending text in front of the pieces after it. */
  lemma TextTurnInOrder(t: string, ws: seq<(nat, nat)>, urls: iset<string>, k: nat, cursor: nat)
    requires Str.Ordered(t, 0, ws)
    requires k + 1 < |ws| && cursor <= ws[k].0
    requires Str.Word(t, ws, k) !in urls && Str.Word(t, ws, k + 1) in urls
    requires InOrderFrom(PiecesFrom(t, ws, urls, k + 1, ws[k + 1].0), ws[k + 1].0)
    ensures InOrderFrom(PiecesFrom(t, ws, urls, k, cursor), cursor)
  {
    ConsInOrder(Piece(false, cursor, ws[k].1), PiecesFrom(t, ws, urls, k + 1, ws[k + 1].0), cursor, ws[k + 1].0);
  }

  lemma CoveredCons(p: Piece, rest: seq<Piece>, j: nat)
    requires Covered(rest, j)
    ensures Covered([p] + rest, j)
  {
    var i :| 0 <= i < |rest| && rest[i].lo <= j < rest[i].hi;
    assert ([p] + rest)[i + 1] == rest[i];
  }

  /** Between the end of word `k` and the start of the next word there is only white space. */
  lemma Gap(t: string, ws: seq<(nat, nat)>, k: nat, j: nat)
    requires Str.Tokenized(t, 0, ws)
    requires k < |ws| && ws[k].1 <= j < |t| && (k + 1 < |ws| ==> j < ws[k + 1].0)
    ensures Str.IsAsciiWhitespace(t[j])
  {
    forall m | 0 <= m < |ws| ensures !(ws[m].0 <= j < ws[m].1) {
      if m > k + 1 {
        assert ws[k + 1].1 < ws[m].0;
      }
    }
  }

  /** Before the first word there is only white space. */
  lemma Lead(t: string, ws: seq<(nat, nat)>, j: nat)
    requires Str.Tokenized(t, 0, ws)
    requires j < |t| && (0 < |ws| ==> j < ws[0].0)
    ensures Str.IsAsciiWhitespace(t[j])
  {
    forall m | 0 <= m < |ws| ensures !(ws[m].0 <= j < ws[m].1) {
      if m > 0 {
        assert ws[0].1 < ws[m].0;
      }
    }
  }

  /** Nothing but white space is lost: every other character from `cursor` on lies inside
      a piece. */
  lemma {:induction false} PiecesCoverText(
    t: string, ws: seq<(nat, nat)>, urls: iset<string>, k: nat, cursor: nat)
    requires Str.Tokenized(t, 0, ws)
    requires k <= |ws| && cursor <= |t|
    requires k < |ws| ==> cursor <= ws[k].0
    requires k < |ws| && Str.Word(t, ws, k) in urls ==>
      forall j :: cursor <= j < ws[k].0 ==> Str.IsAsciiWhitespace(t[j])
    ensures forall j :: cursor <= j < |t| && !Str.IsAsciiWhitespace(t[j]) ==>
      Covered(PiecesFrom(t, ws, urls, k, cursor), j)
    decreases |ws| - k
  {
    var ps := PiecesFrom(t, ws, urls, k, cursor);
    if k == |ws| {
      forall j | cursor <= j < |t| ensures Covered(ps, j) {
        assert ps[0].lo <= j < ps[0].hi;
      }
    } else if Str.Word(t, ws, k) in urls {
      var next := if k + 1 < |ws| then ws[k + 1].0 else |t|;
      var rest := PiecesFrom(t, ws, urls, k + 1, next);
      PiecesCoverText(t, ws, urls, k + 1, next);
      forall j | cursor <= j < |t| && !Str.IsAsciiWhitespace(t[j]) ensures Covered(ps, j) {
        if j < ws[k].1 {
          assert ps[0].lo <= j < ps[0].hi;
        } else if j < next {
          Gap(t, ws, k, j);
        } else {
          CoveredCons(ps[0], rest, j);
        }
      }
    } else if k + 1 < |ws| && Str.Word(t, ws, k + 1) in urls {
      var rest := PiecesFrom(t, ws, urls, k + 1, ws[k + 1].0);
      PiecesCoverText(t, ws, urls, k + 1, ws[k + 1].0);
      forall j | cursor <= j < |t| && !Str.IsAsciiWhitespace(t[j]) ensures Covered(ps, j) {
        if j < ws[k].1 {
          assert ps[0].lo <= j < ps[0].hi;
        } else if j < ws[k + 1].0 {
          Gap(t, ws, k, j);
        } else {
          CoveredCons(ps[0], rest, j);
        }
      }
    } else {
      PiecesCoverText(t, ws, urls, k + 1, cursor);
    }
  }

  /** Every link piece of `ps` is one of the words from `k` on, and a link. */
  ghost predicate LinksAreWords(t: string, ws: seq<(nat, nat)>, urls: iset<string>, k: nat, ps: seq<Piece>)
    requires k <= |ws| && InBounds(t, ps)
  {
    forall i :: 0 <= i < |ps| && ps[i].url ==> (ps[i].lo, ps[i].hi) in ws[k..] && t[ps[i].lo..ps[i].hi] in urls
  }

  /** Every word from `k` on that is a link has a link piece in `ps`. */
  ghost predicate WordsAreLinks(t: string, ws: seq<(nat, nat)>, urls: iset<string>, k: nat, ps: seq<Piece>)
    requires Str.Ordered(t, 0, ws)
  {
    forall m :: k <= m < |ws| && Str.Word(t, ws, m) in urls ==> Piece(true, ws[m].0, ws[m].1) in ps
  }

  /** The link pieces are exactly the words that are links. */
  lemma {:induction false} LinkPiecesAreLinkWords(
    t: string, ws: seq<(nat, nat)>, urls: iset<string>, k: nat, cursor: nat)
    requires Str.Ordered(t, 0, ws)
    requires k <= |ws| && cursor <= |t|
    requires k < |ws| ==> cursor <= ws[k].0
    ensures LinksAreWords(t, ws, urls, k, PiecesFrom(t, ws, urls, k, cursor))
    ensures WordsAreLinks(t, ws, urls, k, PiecesFrom(t, ws, urls, k, cursor))
    decreases |ws| - k
  {
    if k < |ws| {
      if Str.Word(t, ws, k) in urls {
        var next := if k + 1 < |ws| then ws[k + 1].0 else |t|;
        LinkPiecesAreLinkWords(t, ws, urls, k + 1, next);
        LinksCons(t, ws, urls, k, Piece(true, ws[k].0, ws[k].1), PiecesFrom(t, ws, urls, k + 1, next));
      } else if k + 1 < |ws| && Str.Word(t, ws, k + 1) in urls {
        LinkPiecesAreLinkWords(t, ws, urls, k + 1, ws[k + 1].0);
        LinksCons(t, ws, urls, k, Piece(false, cursor, ws[k].1), PiecesFrom(t, ws, urls, k + 1, ws[k + 1].0));
      } else {
        LinkPiecesAreLinkWords(t, ws, urls, k + 1, cursor);
        LinksSkip(t, ws, urls, k, PiecesFrom(t, ws, urls, k + 1, cursor));
      }
    }
  }

  /** A piece for word `k`, a link piece only if the word is a link, in front of pieces
      that match the words after `k`. */
  lemma LinksCons(t: string, ws: seq<(nat, nat)>, urls: iset<string>, k: nat, p: Piece, rest: seq<Piece>)
    requires Str.Ordered(t, 0, ws) && k < |ws|
    requires p.lo <= p.hi <= |t| && InBounds(t, rest)
    requires p.url ==> p == Piece(true, ws[k].0, ws[k].1) && Str.Word(t, ws, k) in urls
    requires Str.Word(t, ws, k) in urls ==> p == Piece(true, ws[k].0, ws[k].1)
    requires LinksAreWords(t, ws, urls, k + 1, rest) && WordsAreLinks(t, ws, urls, k + 1, rest)
    ensures InBounds(t, [p] + rest)
    ensures LinksAreWords(t, ws, urls, k, [p] + rest) && WordsAreLinks(t, ws, urls, k, [p] + rest)
  {
    var ps := [p] + rest;
    assert ws[k..] == [ws[k]] + ws[k + 1..];
    forall i | 0 <= i < |ps| && ps[i].url
      ensures (ps[i].lo, ps[i].hi) in ws[k..] && t[ps[i].lo..ps[i].hi] in urls
    {
      if i > 0 {
        assert ps[i] == rest[i - 1];
      }
    }
  }

  /** A word that is no link and closes nothing leaves the match unchanged. */
  lemma LinksSkip(t: string, ws: seq<(nat, nat)>, urls: iset<string>, k: nat, rest: seq<Piece>)
    requires Str.Ordered(t, 0, ws) && k < |ws| && InBounds(t, rest)
    requires Str.Word(t, ws, k) !in urls
    requires LinksAreWords(t, ws, urls, k + 1, rest) && WordsAreLinks(t, ws, urls, k + 1, rest)
    ensures LinksAreWords(t, ws, urls, k, rest) && WordsAreLinks(t, ws, urls, k, rest)
  {
    assert ws[k..] == [ws[k]] + ws[k + 1..];
  }

  /** What `parse_text` is meant to do: the plain-text and link spans are slices of the
      trimmed input in order, they leave out nothing but white space, and the links are
      exactly the words that are links. */
  lemma ParseTextKeepsEveryWord(input: string, urls: iset<string>)
    ensures var t := Str.Trim(input);
      var ws := Str.WordsFrom(t, 0);
      var ps := PiecesFrom(t, ws, urls, 0, 0);
      && TextSpans(input, urls) == SpansOf(t, ps)
      && InOrderFrom(ps, 0)
      && (forall j :: 0 <= j < |t| && !Str.IsAsciiWhitespace(t[j]) ==> Covered(ps, j))
      && (forall m :: 0 <= m < |ws| && Str.Word(t, ws, m) in urls ==> Piece(true, ws[m].0, ws[m].1) in ps)
      && (forall i :: 0 <= i < |ps| && ps[i].url ==> (ps[i].lo, ps[i].hi) in ws)
  {
    var t := Str.Trim(input);
    var ws := Str.WordsFrom(t, 0);
    PiecesKeepText(t, ws, urls);
    PiecesKeepLinks(t, ws, urls);
  }

  /** The pieces of `t` are in order and cover every non-blank character. */
  lemma PiecesKeepText(t: string, ws: seq<(nat, nat)>, urls: iset<string>)
    requires ws == Str.WordsFrom(t, 0)
    ensures InOrderFrom(PiecesFrom(t, ws, urls, 0, 0), 0)
    ensures forall j :: 0 <= j < |t| && !Str.IsAsciiWhitespace(t[j]) ==> Covered(PiecesFrom(t, ws, urls, 0, 0), j)
  {
    Str.WordsFromTokenized(t, 0);
    PiecesInOrder(t, ws, urls, 0, 0);
    LeadIsBlank(t, ws, urls);
    PiecesCoverText(t, ws, urls, 0, 0);
  }

  /** The link pieces of `t` are exactly its words that are links. */
  lemma PiecesKeepLinks(t: string, ws: seq<(nat, nat)>, urls: iset<string>)
    requires ws == Str.WordsFrom(t, 0)
    ensures forall m :: 0 <= m < |ws| && Str.Word(t, ws, m) in urls ==>
      Piece(true, ws[m].0, ws[m].1) in PiecesFrom(t, ws, urls, 0, 0)
    ensures forall i :: 0 <= i < |PiecesFrom(t, ws, urls, 0, 0)| && PiecesFrom(t, ws, urls, 0, 0)[i].url ==>
      (PiecesFrom(t, ws, urls, 0, 0)[i].lo, PiecesFrom(t, ws, urls, 0, 0)[i].hi) in ws
  {
    Str.WordsFromTokenized(t, 0);
    LinkPiecesAreLinkWords(t, ws, urls, 0, 0);
    assert ws[0..] == ws;
  }

  lemma LeadIsBlank(t: string, ws: seq<(nat, nat)>, urls: iset<string>)
    requires Str.Tokenized(t, 0, ws)
    ensures 0 < |ws| && Str.Word(t, ws, 0) in urls ==>
      forall j :: 0 <= j < ws[0].0 ==> Str.IsAsciiWhitespace(t[j])
  {
    if 0 < |ws| {
      forall j | 0 <= j < ws[0].0 ensures Str.IsAsciiWhitespace(t[j]) {
        Lead(t, ws, j);
      }
    }
  }

  /** After word `k`, with plain text pending from `cursor`, the spans `r` followed by
      the spans still to come are `whole`. */
  ghost predicate Reading(
    t: string, ws: seq<(nat, nat)>, urls: iset<string>, k: nat, cursor: nat, r: seq<Span>, whole: seq<Span>)
    requires Str.Ordered(t, 0, ws)
  {
    && k <= |ws| && cursor <= |t|
    && (k < |ws| ==> cursor <= ws[k].0)
    && r + SpansOf(t, PiecesFrom(t, ws, urls, k, cursor)) == whole
  }

  /** `parse_text`, positions corrected: appends the spans of the trimmed input. */
  method ParseText(input: string, urls: iset<string>, spans: seq<Span>) returns (r: seq<Span>)
    ensures r == spans + TextSpans(input, urls)
  {
    var t := Str.Trim(input);
    var ws := Str.WordsFrom(t, 0);
    ghost var whole := spans + TextSpans(input, urls);
    var k: nat, cursor: nat := 0, 0;
    r := spans;
    while k < |ws|
      invariant Reading(t, ws, urls, k, cursor, r, whole)
      decreases |ws| - k
    {
      r, cursor := ParseWord(t, ws, urls, k, cursor, r, whole);
      k := k + 1;
    }
    ghost var before := r;
    if cursor < |t| {
      r := r + [Text(t[cursor..])];
    }
    TextAfterLastWord(t, ws, urls, cursor, before, whole);
  }

  /** The text after the last word, if any, completes the spans. */
  lemma TextAfterLastWord(
    t: string, ws: seq<(nat, nat)>, urls: iset<string>, cursor: nat, r: seq<Span>, whole: seq<Span>)
    requires Str.Ordered(t, 0, ws) && Reading(t, ws, urls, |ws|, cursor, r, whole)
    ensures r + (if cursor < |t| then [Text(t[cursor..])] else []) == whole
  {
    var tail := PiecesFrom(t, ws, urls, |ws|, cursor);
    if cursor < |t| {
      assert tail == [Piece(false, cursor, |t|)];
      assert tail[1..] == [];
      assert t[cursor..|t|] == t[cursor..];
      assert SpansOf(t, tail) == [SpanOf(t, tail[0])] + SpansOf(t, []);
    }
  }

  /** One turn of the loop of `parse_text`: the spans word `k` closes are appended, and
      the pending text starts at `next` after it. */
  method ParseWord(
    t: string, ws: seq<(nat, nat)>, urls: iset<string>, k: nat, cursor: nat, r: seq<Span>,
    ghost whole: seq<Span>)
    returns (r': seq<Span>, next: nat)
    requires Str.Ordered(t, 0, ws)
    requires k < |ws| && Reading(t, ws, urls, k, cursor, r, whole)
    ensures Reading(t, ws, urls, k + 1, next, r', whole)
  {
    var el := t[ws[k].0..ws[k].1];
    assert el == Str.Word(t, ws, k);
    var emitted;
    if el in urls {
      emitted := [Url(el)];
      next := if k + 1 < |ws| then ws[k + 1].0 else |t|;
    } else if k + 1 < |ws| && t[ws[k + 1].0..ws[k + 1].1] in urls {
      assert t[ws[k + 1].0..ws[k + 1].1] == Str.Word(t, ws, k + 1);
      emitted := [Text(t[cursor..ws[k].1])];
      next := ws[k + 1].0;
    } else {
      assert k + 1 < |ws| ==> t[ws[k + 1].0..ws[k + 1].1] == Str.Word(t, ws, k + 1);
      emitted := [];
      next := cursor;
    }
    assert SpansOf(t, PiecesFrom(t, ws, urls, k, cursor))
      == emitted + SpansOf(t, PiecesFrom(t, ws, urls, k + 1, next));
    Associate(r, emitted, SpansOf(t, PiecesFrom(t, ws, urls, k + 1, next)));
    r' := r + emitted;
  }

  // --------------------------------------------------------- as written

  /** The loop of `parse_text` as written: `pos` advances by each word's length plus one,
      as though words were always one space apart, and is used as the position of the
      text before a link. */
  function AsWrittenFrom(
    t: string, ws: seq<(nat, nat)>, urls: iset<string>, k: nat, cursor: nat, pos: nat)
    : seq<Span>
    requires Str.Ordered(t, 0, ws)
    requires k <= |ws| && cursor <= pos
    requires k < |ws| ==> pos <= ws[k].0
    decreases |ws| - k
  {
    if k == |ws| then
      if cursor < |t| then [Text(t[cursor..])] else []
    else
      var el := Str.Word(t, ws, k);
      if el in urls then
        [Url(el)] + AsWrittenFrom(t, ws, urls, k + 1, pos + |el| + 1, pos + |el| + 1)
      else if k + 1 == |ws| then
        AsWrittenFrom(t, ws, urls, k + 1, cursor, pos)
      else if Str.Word(t, ws, k + 1) in urls then
        [Text(t[cursor..pos + |el|])] + AsWrittenFrom(t, ws, urls, k + 1, pos, pos + |el| + 1)
      else
        AsWrittenFrom(t, ws, urls, k + 1, cursor, pos + |el| + 1)
  }

  function ParseTextAsWritten(input: string, urls: iset<string>): seq<Span> {
    var t := Str.Trim(input);
    AsWrittenFrom(t, Str.WordsFrom(t, 0), urls, 0, 0, 0)
  }

  /** A line with two spaces after its first word, and a link after its second. */
  const ExampleLine: string := "a  b http://x"
  const ExampleWords: seq<(nat, nat)> := [(0, 1), (3, 4), (5, 13)]

  /** The links of the example: its last word only. */
  const ExampleLinks: iset<string> := iset{"http://x"}

  lemma ExampleTrimmed()
    ensures Str.Trim(ExampleLine) == ExampleLine
  {
    Str.TrimIdentity(ExampleLine);
  }

  /** A line shaped like the example: a character, two blanks, a character, a blank, then
      eight characters. */
  predicate ExampleShape(s: string) {
    && |s| == 13
    && !Str.IsAsciiWhitespace(s[0]) && Str.IsAsciiWhitespace(s[1]) && Str.IsAsciiWhitespace(s[2])
    && !Str.IsAsciiWhitespace(s[3]) && Str.IsAsciiWhitespace(s[4])
    && forall j :: 5 <= j < 13 ==> !Str.IsAsciiWhitespace(s[j])
  }

  lemma ExampleShapeLink(s: string)
    requires ExampleShape(s)
    ensures Str.WordsFrom(s, 4) == [(5, 13)]
  {
    Str.WordAt(s, 5, 13);
    assert Str.WordsFrom(s, 13) == [];
    Str.SkipBlank(s, 4);
  }

  lemma ExampleShapeSecond(s: string)
    requires ExampleShape(s)
    ensures Str.WordsFrom(s, 1) == [(3, 4), (5, 13)]
  {
    ExampleShapeLink(s);
    Str.WordAt(s, 3, 4);
    Str.SkipBlank(s, 2);
    Str.SkipBlank(s, 1);
  }

  /** The words of a line shaped like the example. */
  lemma ExampleShapeWords(s: string)
    requires ExampleShape(s)
    ensures Str.WordsFrom(s, 0) == [(0, 1), (3, 4), (5, 13)]
  {
    ExampleShapeSecond(s);
    Str.WordAt(s, 0, 1);
  }

  /** The words of the example line: "a", "b" and the link. */
  lemma ExampleLineWords()
    ensures Str.WordsFrom(ExampleLine, 0) == ExampleWords
  {
    ExampleShapeWords(ExampleLine);
  }

  lemma ExampleWordTexts()
    ensures Str.Ordered(ExampleLine, 0, ExampleWords)
    ensures Str.Word(ExampleLine, ExampleWords, 0) == "a"
    ensures Str.Word(ExampleLine, ExampleWords, 1) == "b"
    ensures Str.Word(ExampleLine, ExampleWords, 2) == "http://x"
  {
  }

  lemma AsWrittenExampleTail()
    ensures Str.Ordered(ExampleLine, 0, ExampleWords)
    ensures AsWrittenFrom(ExampleLine, ExampleWords, ExampleLinks, 2, 2, 4) == [Url("http://x")]
  {
    ExampleWordTexts();
  }

  lemma AsWrittenExampleSecond()
    ensures Str.Ordered(ExampleLine, 0, ExampleWords)
    ensures AsWrittenFrom(ExampleLine, ExampleWords, ExampleLinks, 1, 0, 2) == [Text("a  "), Url("http://x")]
  {
    ExampleWordTexts();
    AsWrittenExampleTail();
    assert ExampleLine[0..3] == "a  ";
  }

  /** With two spaces between words the text before a link is cut short: in "a  b http://x"
      the word "b" is dropped. */
  lemma AsWrittenDropsWordBeforeLink()
    ensures ParseTextAsWritten(ExampleLine, ExampleLinks) == [Text("a  "), Url("http://x")]
  {
    ExampleTrimmed();
    ExampleLineWords();
    ExampleWordTexts();
    AsWrittenExampleSecond();
  }

  lemma CorrectedExamplePieces()
    ensures Str.Ordered(ExampleLine, 0, ExampleWords)
    ensures PiecesFrom(ExampleLine, ExampleWords, ExampleLinks, 0, 0)
      == [Piece(false, 0, 4), Piece(true, 5, 13)]
  {
    ExampleWordTexts();
    assert PiecesFrom(ExampleLine, ExampleWords, ExampleLinks, 3, 13) == [];
    assert PiecesFrom(ExampleLine, ExampleWords, ExampleLinks, 2, 5) == [Piece(true, 5, 13)];
  }

  lemma CorrectedExampleSpans()
    ensures SpansOf(ExampleLine, [Piece(false, 0, 4), Piece(true, 5, 13)])
      == [Text("a  b"), Url("http://x")]
  {
    var ps := [Piece(false, 0, 4), Piece(true, 5, 13)];
    assert ExampleLine[0..4] == "a  b";
    assert ExampleLine[5..13] == "http://x";
    assert ps[1..][1..] == [];
    assert SpansOf(ExampleLine, ps[1..]) == [Url("http://x")];
  }

  /** The corrected reading of the same line keeps "b". */
  lemma CorrectedKeepsWordBeforeLink()
    ensures TextSpans(ExampleLine, ExampleLinks) == [Text("a  b"), Url("http://x")]
  {
    ExampleTrimmed();
    ExampleLineWords();
    CorrectedExamplePieces();
    CorrectedExampleSpans();
  }

  // ---------------------------------------------------------------- from_pm

  /** Ordering by position, start first then end. */
  predicate PosLe(a: EmoteTag, b: EmoteTag) {
    a.start < b.start || (a.start == b.start && a.end <= b.end)
  }

  predicate SortedByPos(es: seq<EmoteTag>) {
    forall i, j :: 0 <= i < j < |es| ==> PosLe(es[i], es[j])
  }

  /** No tag of `es` comes before `x`. */
  predicate NoneBefore(x: EmoteTag, es: seq<EmoteTag>) {
    forall j :: 0 <= j < |es| ==> PosLe(x, es[j])
  }

  function InsertByPos(e: EmoteTag, es: seq<EmoteTag>): (r: seq<EmoteTag>)
    requires SortedByPos(es)
    ensures |r| == |es| + 1
    ensures SortedByPos(r)
    ensures forall x :: NoneBefore(x, es) && PosLe(x, e) ==> NoneBefore(x, r)
  {
    if es == [] then [e]
    else if PosLe(e, es[0]) then [e] + es
    else
      var rest := InsertByPos(e, es[1..]);
      assert NoneBefore(es[0], es[1..]);
      [es[0]] + rest
  }

  lemma {:induction false} InsertByPosAdds(e: EmoteTag, es: seq<EmoteTag>)
    requires SortedByPos(es)
    ensures multiset(InsertByPos(e, es)) == multiset(es) + multiset{e}
  {
    if es != [] && !PosLe(e, es[0]) {
      InsertByPosAdds(e, es[1..]);
      assert es == [es[0]] + es[1..];
    }
  }

  /** The emote tags in position order (`sort_unstable_by_key` on the byte position). */
  function SortByPos(es: seq<EmoteTag>): (r: seq<EmoteTag>)
    ensures |r| == |es|
    ensures SortedByPos(r)
  {
    if es == [] then [] else InsertByPos(es[|es| - 1], SortByPos(es[..|es| - 1]))
  }

  /** Sorting keeps every tag and adds none. */
  lemma {:induction false} SortByPosPermutes(es: seq<EmoteTag>)
    ensures multiset(SortByPos(es)) == multiset(es)
  {
    if es != [] {
      SortByPosPermutes(es[..|es| - 1]);
      InsertByPosAdds(es[|es| - 1], SortByPos(es[..|es| - 1]));
      assert es == es[..|es| - 1] + [es[|es| - 1]];
    }
  }

  /** The tags, in order, each lie inside the text and after the one before: slicing the
      text at them does not panic. */
  predicate Placeable(data: string, es: seq<EmoteTag>) {
    && (forall i :: 0 <= i < |es| ==> es[i].start <= es[i].end <= |data|)
    && (forall i, j :: 0 <= i < j < |es| ==> es[i].end <= es[j].start)
  }

  /** The spans of `data` from tag `i` on, with text pending from `cursor`: the text up to
      each emote read by `parse_text`, then the emote. */
  function SpansFrom(
    data: string, es: seq<EmoteTag>, urls: iset<string>, i: nat, cursor: nat)
    : seq<Span>
    requires Placeable(data, es)
    requires i <= |es| && cursor <= |data|
    requires i < |es| ==> cursor <= es[i].start
    decreases |es| - i
  {
    if i == |es| then
      if cursor != |data| then TextSpans(data[cursor..], urls) else []
    else
      var e := es[i];
      (if e.start != cursor then TextSpans(data[cursor..e.start], urls) else [])
        + [Emote(e.id, data[e.start..e.end])]
        + SpansFrom(data, es, urls, i + 1, e.end)
  }

  /** The emote spans among `spans`, in order. */
  function EmotesIn(spans: seq<Span>): (r: seq<Span>)
    ensures forall i :: 0 <= i < |r| ==> r[i].Emote?
  {
    if spans == [] then []
    else (if spans[0].Emote? then [spans[0]] else []) + EmotesIn(spans[1..])
  }

  lemma {:induction false} EmotesInAppend(a: seq<Span>, b: seq<Span>)
    ensures EmotesIn(a + b) == EmotesIn(a) + EmotesIn(b)
    decreases |a|
  {
    if a == [] {
      assert a + b == b;
    } else {
      assert (a + b)[1..] == a[1..] + b;
      EmotesInAppend(a[1..], b);
    }
  }

  lemma {:induction false} TextSpansHaveNoEmotes(t: string, ps: seq<Piece>)
    requires InBounds(t, ps)
    ensures EmotesIn(SpansOf(t, ps)) == []
    decreases |ps|
  {
    if ps != [] {
      TextSpansHaveNoEmotes(t, ps[1..]);
      assert SpansOf(t, ps)[1..] == SpansOf(t, ps[1..]);
    }
  }

  lemma NoEmotesIn(input: string, urls: iset<string>)
    ensures EmotesIn(TextSpans(input, urls)) == []
  {
    var t := Str.Trim(input);
    TextSpansHaveNoEmotes(t, PiecesFrom(t, Str.WordsFrom(t, 0), urls, 0, 0));
  }

  /** Text without emotes, an emote, and more spans: the emote comes first. */
  lemma EmotesOfTurn(lead: seq<Span>, em: Span, rest: seq<Span>)
    requires EmotesIn(lead) == [] && em.Emote?
    ensures EmotesIn(lead + [em] + rest) == [em] + EmotesIn(rest)
  {
    EmotesInAppend(lead, [em]);
    EmotesInAppend(lead + [em], rest);
    assert EmotesIn([em]) == [em];
  }

  /** `r` lists the tags of `es` from `i` on, in order, as emote spans of the text they
      cover. */
  predicate TagsFrom(data: string, es: seq<EmoteTag>, i: nat, r: seq<Span>) {
    && |r| + i == |es|
    && forall j :: i <= j < |es| ==>
         es[j].start <= es[j].end <= |data| && r[j - i] == Emote(es[j].id, data[es[j].start..es[j].end])
  }

  lemma TagsPrepended(data: string, es: seq<EmoteTag>, i: nat, r': seq<Span>)
    requires i < |es| && es[i].start <= es[i].end <= |data|
    requires TagsFrom(data, es, i + 1, r')
    ensures TagsFrom(data, es, i, [Emote(es[i].id, data[es[i].start..es[i].end])] + r')
  {
    var r := [Emote(es[i].id, data[es[i].start..es[i].end])] + r';
    forall j | i <= j < |es|
      ensures es[j].start <= es[j].end <= |data| && r[j - i] == Emote(es[j].id, data[es[j].start..es[j].end])
    {
      if j > i {
        assert r[j - i] == r'[j - (i + 1)];
      }
    }
  }

  /** The emote spans of a message are exactly its tags from `i` on, in order, each naming
      the text the tag covers: `parse_text` makes no emotes. */
  lemma {:induction false} EmoteSpansInOrder(
    data: string, es: seq<EmoteTag>, urls: iset<string>, i: nat, cursor: nat)
    requires Placeable(data, es)
    requires i <= |es| && cursor <= |data|
    requires i < |es| ==> cursor <= es[i].start
    ensures TagsFrom(data, es, i, EmotesIn(SpansFrom(data, es, urls, i, cursor)))
    decreases |es| - i
  {
    if i < |es| {
      var e := es[i];
      var em := Emote(e.id, data[e.start..e.end]);
      var lead := if e.start != cursor then TextSpans(data[cursor..e.start], urls) else [];
      var rest := SpansFrom(data, es, urls, i + 1, e.end);
      assert SpansFrom(data, es, urls, i, cursor) == lead + [em] + rest;
      if e.start != cursor {
        NoEmotesIn(data[cursor..e.start], urls);
      }
      EmotesOfTurn(lead, em, rest);
      EmoteSpansInOrder(data, es, urls, i + 1, e.end);
      TagsPrepended(data, es, i, EmotesIn(rest));
    } else if cursor != |data| {
      NoEmotesIn(data[cursor..], urls);
    }
  }

  /** The emote spans of a message built by `from_pm` are its emote tags in position order. */
  lemma MessageEmotesInOrder(data: string, emotes: seq<EmoteTag>, urls: iset<string>)
    requires Placeable(data, SortByPos(emotes))
    ensures var es := SortByPos(emotes);
      var r := EmotesIn(SpansFrom(data, es, urls, 0, 0));
      && |r| == |es| == |emotes|
      && forall j :: 0 <= j < |es| ==> r[j] == Emote(es[j].id, data[es[j].start..es[j].end])
  {
    EmoteSpansInOrder(data, SortByPos(emotes), urls, 0, 0);
  }

  /** The (name, id) pairs of the tags, in order. */
  function NameIds(es: seq<EmoteTag>): (r: seq<(string, string)>)
  {
    seq(|es|, i requires 0 <= i < |es| => (es[i].name, es[i].id))
  }

  /** One turn of the emote loop of `from_pm`, on the spans: the text before tag `i`, if
      any, then the emote. */
  method EmoteTurn(
    data: string, es: seq<EmoteTag>, urls: iset<string>, i: nat, cursor: nat, spans: seq<Span>)
    returns (r: seq<Span>)
    requires Placeable(data, es)
    requires i < |es| && cursor <= es[i].start
    ensures r + SpansFrom(data, es, urls, i + 1, es[i].end) == spans + SpansFrom(data, es, urls, i, cursor)
  {
    var e := es[i];
    ghost var lead := if e.start != cursor then TextSpans(data[cursor..e.start], urls) else [];
    var em := [Emote(e.id, data[e.start..e.end])];
    ghost var rest := SpansFrom(data, es, urls, i + 1, e.end);
    assert SpansFrom(data, es, urls, i, cursor) == lead + em + rest;
    r := spans;
    if e.start != cursor {
      r := ParseText(data[cursor..e.start], urls, r);
    }
    assert r == spans + lead;
    r := r + em;
    AssociateSpans(spans, lead, em, rest);
  }

  lemma AssociateSpans(a: seq<Span>, b: seq<Span>, c: seq<Span>, d: seq<Span>)
    ensures a + b + c + d == a + (b + c + d)
  {
  }

  /** The text after the last emote, if any: the spans are then complete. */
  method TrailingText(data: string, es: seq<EmoteTag>, urls: iset<string>, cursor: nat, spans: seq<Span>)
    returns (r: seq<Span>)
    requires Placeable(data, es) && Progress(data, es, urls, |es|, cursor, spans)
    ensures r == SpansFrom(data, es, urls, 0, 0)
  {
    r := spans;
    if cursor != |data| {
      r := ParseText(data[cursor..], urls, r);
    }
  }

  /** `from_pm`: the spans of the text with its emotes, every emote name recorded in the
      emote map (a fetch requested for an emote not yet held), and the tags copied over. */
  method FromPm(
    pm: Privmsg, emoteMap: Emotes.EmoteMap, opts: MessageOpts,
    urls: iset<string>, parseUuid: string -> Option<Uuid>)
    returns (m: Message)
    requires emoteMap.Valid()
    requires Placeable(pm.data, SortByPos(pm.emotes))
    modifies emoteMap, emoteMap.fetcher, emoteMap.fetcher.requests
    ensures emoteMap.Valid()
    ensures m.spans == SpansFrom(pm.data, SortByPos(pm.emotes), urls, 0, 0)
    ensures emoteMap.nameToId == InsertAll(old(emoteMap.nameToId), NameIds(SortByPos(pm.emotes)))
    ensures emoteMap.emoteMap == old(emoteMap.emoteMap) && emoteMap.badgeTags == old(emoteMap.badgeTags)
    ensures emoteMap.fetcher.seen == Emotes.SeenAfter(
      old(emoteMap.fetcher.seen), old(emoteMap.emoteMap).Keys, Emotes.Ids(NameIds(SortByPos(pm.emotes))))
    ensures emoteMap.fetcher.requests.items == old(emoteMap.fetcher.requests.items) + Emotes.Requests(
      old(emoteMap.fetcher.seen), old(emoteMap.emoteMap).Keys, Emotes.Ids(NameIds(SortByPos(pm.emotes))))
    ensures m.id == (if pm.msgId.Some? then parseUuid(pm.msgId.value) else None)
    ensures m.sender == pm.sender && m.data == pm.data && m.badges == pm.badges && m.opts == opts
    ensures m.color == pm.color.UnwrapOr(Color(0, 0, 0))
  {
    var spans := EmoteLoop(pm.data, SortByPos(pm.emotes), emoteMap, urls);
    var id := if pm.msgId.Some? then parseUuid(pm.msgId.value) else None;
    m := Message(id, pm.sender, pm.color.UnwrapOr(Color(0, 0, 0)), pm.badges, pm.data, spans, opts);
  }

  /** After `i` tags with text pending from `cursor`, `spans` followed by what is left to
      read is the whole message. */
  ghost predicate Progress(
    data: string, es: seq<EmoteTag>, urls: iset<string>, i: nat, cursor: nat, spans: seq<Span>)
    requires Placeable(data, es)
  {
    && i <= |es| && cursor <= |data|
    && (i < |es| ==> cursor <= es[i].start)
    && spans + SpansFrom(data, es, urls, i, cursor) == SpansFrom(data, es, urls, 0, 0)
  }

  /** The emote loop of `from_pm` over the sorted tags `es`, then the text after the last
      one. */
  method EmoteLoop(data: string, es: seq<EmoteTag>, emoteMap: Emotes.EmoteMap, urls: iset<string>)
    returns (spans: seq<Span>)
    requires emoteMap.Valid() && Placeable(data, es)
    modifies emoteMap, emoteMap.fetcher, emoteMap.fetcher.requests
    ensures emoteMap.Valid()
    ensures spans == SpansFrom(data, es, urls, 0, 0)
    ensures emoteMap.nameToId == InsertAll(old(emoteMap.nameToId), NameIds(es))
    ensures emoteMap.emoteMap == old(emoteMap.emoteMap) && emoteMap.badgeTags == old(emoteMap.badgeTags)
    ensures emoteMap.fetcher.seen
      == Emotes.SeenAfter(old(emoteMap.fetcher.seen), old(emoteMap.emoteMap).Keys, Emotes.Ids(NameIds(es)))
    ensures emoteMap.fetcher.requests.items == old(emoteMap.fetcher.requests.items)
      + Emotes.Requests(old(emoteMap.fetcher.seen), old(emoteMap.emoteMap).Keys, Emotes.Ids(NameIds(es)))
  {
    spans := [];
    var cursor: nat := 0;
    ghost var seen := emoteMap.fetcher.seen;
    ghost var known := emoteMap.emoteMap.Keys;
    for i := 0 to |es|
      invariant Progress(data, es, urls, i, cursor, spans)
      invariant emoteMap.Valid()
      invariant emoteMap.nameToId == InsertAll(old(emoteMap.nameToId), NameIds(es[..i]))
      invariant emoteMap.emoteMap == old(emoteMap.emoteMap) && emoteMap.badgeTags == old(emoteMap.badgeTags)
      invariant Emotes.FetcherAfter(emoteMap.fetcher.seen, emoteMap.fetcher.requests.items,
        seen, old(emoteMap.fetcher.requests.items), known, Emotes.Ids(NameIds(es[..i])))
    {
      ghost var seenBefore := emoteMap.fetcher.seen;
      ghost var itemsBefore := emoteMap.fetcher.requests.items;
      spans, cursor := EmoteStep(data, es, emoteMap, urls, i, cursor, spans);
      NameIdsSnoc(es, i);
      TagIdsSnoc(es, i);
      Emotes.FetcherAfterSnoc(seenBefore, itemsBefore, seen, old(emoteMap.fetcher.requests.items), known,
        Emotes.Ids(NameIds(es[..i])), es[i].id, emoteMap.fetcher.seen, emoteMap.fetcher.requests.items);
    }
    assert es[..|es|] == es;
    spans := TrailingText(data, es, urls, cursor, spans);
  }

  /** One turn of the emote loop of `from_pm`: the spans up to and including tag `i`, and
      its name recorded. */
  method EmoteStep(
    data: string, es: seq<EmoteTag>, emoteMap: Emotes.EmoteMap, urls: iset<string>,
    i: nat, cursor: nat, spans: seq<Span>)
    returns (spans': seq<Span>, cursor': nat)
    requires emoteMap.Valid() && Placeable(data, es)
    requires i < |es| && Progress(data, es, urls, i, cursor, spans)
    modifies emoteMap, emoteMap.fetcher, emoteMap.fetcher.requests
    ensures emoteMap.Valid()
    ensures cursor' == es[i].end && Progress(data, es, urls, i + 1, cursor', spans')
    ensures emoteMap.nameToId == old(emoteMap.nameToId)[es[i].name := es[i].id]
    ensures emoteMap.emoteMap == old(emoteMap.emoteMap) && emoteMap.badgeTags == old(emoteMap.badgeTags)
    ensures emoteMap.fetcher.seen
      == old(emoteMap.fetcher.seen) + (if es[i].id in old(emoteMap.emoteMap) then {} else {es[i].id})
    ensures emoteMap.fetcher.requests.items == old(emoteMap.fetcher.requests.items)
      + (if es[i].id in old(emoteMap.emoteMap) || es[i].id in old(emoteMap.fetcher.seen) then [] else [es[i].id])
  {
    var e := es[i];
    spans' := EmoteTurn(data, es, urls, i, cursor, spans);
    emoteMap.InsertEmote(e.id, e.name);
    cursor' := e.end;
  }

  lemma TagIdsSnoc(es: seq<EmoteTag>, i: nat)
    requires i < |es|
    ensures Emotes.Ids(NameIds(es[..i + 1])) == Emotes.Ids(NameIds(es[..i])) + [es[i].id]
  {
    NameIdsSnoc(es, i);
    Emotes.IdsAppend(NameIds(es[..i]), [(es[i].name, es[i].id)]);
  }

  lemma NameIdsSnoc(es: seq<EmoteTag>, i: nat)
    requires i < |es|
    ensures NameIds(es[..i + 1]) == NameIds(es[..i]) + [(es[i].name, es[i].id)]
  {
    assert es[..i + 1] == es[..i] + [es[i]];
  }
}
