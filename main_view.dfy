/** The `emotes` tag of a line the user sends (`MainView::build_emotes` in
    `views/main_view.rs`): each word of the text that is the name of a known emote is
    listed under the emote's id with its position, written as IRCv3 tags carry it for
    Twitch: `id:start-end,start-end/id:start-end`, ends inclusive. */
module MainViews {
  import opened Wrappers
  import opened Maps
  import Str = Text
  import Emotes

  /** One recorded match: the emote id and the start and end recorded for the name. */
  datatype Hit = Hit(id: string, start: nat, end: nat)

  /** The hit for `word` at `start`..`end` when `word` names an emote, else nothing. */
  function Lookup(names: map<string, string>, word: string, start: nat, end: nat): (r: seq<Hit>)
    ensures r != [] <==> word in names
    ensures r != [] ==> r == [Hit(names[word], start, end)]
  {
    if word in names then [Hit(names[word], start, end)] else []
  }

  // ------------------------------------------------------------------ the scan

  /** The scan of `build_emotes` as written, from index `i`, the current word starting at
      `start`. A blank at `i` closes the word `data[start..i]` and records it as
      `(start, i)`, the blank's own index; at the last index the rest of the text,
      `data[start..]`, is looked up whatever its last character is, and recorded as
      `(start, i)`. */
  function ScanAsWritten(data: string, names: map<string, string>, i: nat, start: nat): seq<Hit>
    requires start <= i <= |data|
    decreases |data| - i
  {
    if i == |data| then []
    else if i == |data| - 1 then Lookup(names, data[start..], start, i)
    else if !Str.IsAsciiWhitespace(data[i]) then ScanAsWritten(data, names, i + 1, start)
    else Lookup(names, data[start..i], start, i) + ScanAsWritten(data, names, i + 1, i + 1)
  }

  /** The scan with inclusive ends: a word closed by a blank at `i` ends at `i - 1`, a
      blank last character closes a word like any other blank, and an empty word is not
      looked up. */
  function Scan(data: string, names: map<string, string>, i: nat, start: nat): seq<Hit>
    requires start <= i <= |data|
    decreases |data| - i
  {
    if i == |data| then []
    else if i == |data| - 1 && !Str.IsAsciiWhitespace(data[i]) then Lookup(names, data[start..], start, i)
    else if !Str.IsAsciiWhitespace(data[i]) then Scan(data, names, i + 1, start)
    else
      (if start < i then Lookup(names, data[start..i], start, i - 1) else [])
      + Scan(data, names, i + 1, i + 1)
  }

  /** The hit of the word at the half-open range `w`, ends inclusive, when it names an
      emote. */
  function WordHit(data: string, names: map<string, string>, w: (nat, nat)): seq<Hit>
    requires w.0 < w.1 <= |data|
  {
    Lookup(names, data[w.0..w.1], w.0, w.1 - 1)
  }

  /** `ws` are non-empty ranges of `data`. */
  predicate InText(data: string, ws: seq<(nat, nat)>) {
    forall k :: 0 <= k < |ws| ==> ws[k].0 < ws[k].1 <= |data|
  }

  /** The hits of the words `ws` that name emotes, in order. */
  function WordHits(data: string, names: map<string, string>, ws: seq<(nat, nat)>): seq<Hit>
    requires InText(data, ws)
  {
    if ws == [] then [] else WordHit(data, names, ws[0]) + WordHits(data, names, ws[1..])
  }

  /** A hit of `WordHits` is the hit of one of the words. */
  lemma {:induction false} WordHitsMembers(data: string, names: map<string, string>, ws: seq<(nat, nat)>)
    requires InText(data, ws)
    ensures forall h :: h in WordHits(data, names, ws) <==>
      exists k :: 0 <= k < |ws| && h in WordHit(data, names, ws[k])
  {
    if ws != [] {
      WordHitsMembers(data, names, ws[1..]);
      forall h ensures h in WordHits(data, names, ws) <==>
        exists k :: 0 <= k < |ws| && h in WordHit(data, names, ws[k])
      {
        if h in WordHits(data, names, ws[1..]) {
          var k :| 0 <= k < |ws[1..]| && h in WordHit(data, names, ws[1..][k]);
          assert ws[1..][k] == ws[k + 1];
        }
        if exists k :: 0 <= k < |ws| && h in WordHit(data, names, ws[k]) {
          var k :| 0 <= k < |ws| && h in WordHit(data, names, ws[k]);
          if k > 0 {
            assert ws[1..][k - 1] == ws[k];
          }
        }
      }
    }
  }

  /** From a position inside a word, or at a word boundary, the corrected scan records the
      words from `start` on that name emotes, in order. */
  lemma {:induction false} ScanIsWordHits(data: string, names: map<string, string>, i: nat, start: nat)
    requires start <= i <= |data|
    requires start == i || i < |data|
    requires forall j :: start <= j < i ==> !Str.IsAsciiWhitespace(data[j])
    ensures Scan(data, names, i, start) == WordHits(data, names, Str.WordsFrom(data, start))
    decreases |data| - i
  {
    if i == |data| {
      NoWordsLeft(data, names, start);
    } else if i == |data| - 1 && !Str.IsAsciiWhitespace(data[i]) {
      LastWord(data, names, start);
    } else if !Str.IsAsciiWhitespace(data[i]) {
      ScanIsWordHits(data, names, i + 1, start);
      ScanInWord(data, names, i, start);
    } else {
      ScanIsWordHits(data, names, i + 1, i + 1);
      ScanAtBlank(data, names, i, start);
    }
  }

  /** At a blank the corrected scan closes the current word, if any, and goes on with the
      words after the blank. */
  lemma ScanAtBlank(data: string, names: map<string, string>, i: nat, start: nat)
    requires start <= i < |data|
    requires forall j :: start <= j < i ==> !Str.IsAsciiWhitespace(data[j])
    requires Str.IsAsciiWhitespace(data[i])
    requires Scan(data, names, i + 1, i + 1) == WordHits(data, names, Str.WordsFrom(data, i + 1))
    ensures Scan(data, names, i, start) == WordHits(data, names, Str.WordsFrom(data, start))
  {
    Str.SkipBlank(data, i);
    ScanBlank(data, names, i, start);
    if start < i {
      WordClosedAtBlank(data, names, i, start);
    } else {
      assert Closed(data, names, i, start) == [];
    }
  }

  /** The word a blank closes comes first among the words from its start. */
  lemma WordClosedAtBlank(data: string, names: map<string, string>, i: nat, start: nat)
    requires start < i < |data|
    requires forall j :: start <= j < i ==> !Str.IsAsciiWhitespace(data[j])
    requires Str.IsAsciiWhitespace(data[i])
    ensures WordHits(data, names, Str.WordsFrom(data, start))
      == Closed(data, names, i, start) + WordHits(data, names, Str.WordsFrom(data, i))
  {
    Str.WordAt(data, start, i);
    WordHitsCons(data, names, (start, i), Str.WordsFrom(data, i));
    assert WordHit(data, names, (start, i)) == Closed(data, names, i, start);
  }

  /** Inside a word, short of its last character, the corrected scan just moves on. */
  lemma ScanInWord(data: string, names: map<string, string>, i: nat, start: nat)
    requires start <= i < |data| - 1 && !Str.IsAsciiWhitespace(data[i])
    requires Scan(data, names, i + 1, start) == WordHits(data, names, Str.WordsFrom(data, start))
    ensures Scan(data, names, i, start) == WordHits(data, names, Str.WordsFrom(data, start))
  {
  }

  /** At the end of the text there is no word and no hit left. */
  lemma NoWordsLeft(data: string, names: map<string, string>, start: nat)
    requires start == |data|
    ensures Scan(data, names, start, start) == WordHits(data, names, Str.WordsFrom(data, start))
  {
    assert Str.WordsFrom(data, start) == [];
  }

  /** A word running to the end of the text is the last word. */
  lemma LastWord(data: string, names: map<string, string>, start: nat)
    requires start < |data|
    requires forall j :: start <= j < |data| ==> !Str.IsAsciiWhitespace(data[j])
    ensures Str.WordsFrom(data, start) == [(start, |data|)]
    ensures WordHits(data, names, Str.WordsFrom(data, start)) == Scan(data, names, |data| - 1, start)
  {
    Str.LastWordFrom(data, start);
    var ws := [(start, |data|)];
    assert ws[1..] == [];
    assert WordHits(data, names, ws) == WordHit(data, names, ws[0]);
    assert data[start..|data|] == data[start..];
  }

  /** The hits of a word and the words after it. */
  lemma WordHitsCons(data: string, names: map<string, string>, w: (nat, nat), rest: seq<(nat, nat)>)
    requires w.0 < w.1 <= |data| && InText(data, rest)
    ensures InText(data, [w] + rest)
    ensures WordHits(data, names, [w] + rest) == WordHit(data, names, w) + WordHits(data, names, rest)
  {
    assert ([w] + rest)[1..] == rest;
  }

  /** The corrected scan records exactly the whitespace-separated words of the text that
      are emote names: each under its id, from the index of its first character to the
      index of its last. */
  lemma ScanFindsWords(data: string, names: map<string, string>)
    ensures var ws := Str.WordsFrom(data, 0);
      && Str.Tokenized(data, 0, ws)
      && forall h :: h in Scan(data, names, 0, 0) <==>
           exists k :: 0 <= k < |ws| && data[ws[k].0..ws[k].1] in names
             && h == Hit(names[data[ws[k].0..ws[k].1]], ws[k].0, ws[k].1 - 1)
  {
    var ws := Str.WordsFrom(data, 0);
    Str.WordsFromTokenized(data, 0);
    ScanIsWordHits(data, names, 0, 0);
    WordHitsMembers(data, names, ws);
  }

  /** Every hit of the corrected scan covers a name exactly: the characters from its start
      to its end, both included, are the name of the emote it records, with blanks or the
      ends of the text on either side. */
  lemma ScanHitsAreNames(data: string, names: map<string, string>, h: Hit)
    requires h in Scan(data, names, 0, 0)
    ensures h.start <= h.end < |data|
    ensures data[h.start..h.end + 1] in names && names[data[h.start..h.end + 1]] == h.id
    ensures forall j :: h.start <= j <= h.end ==> !Str.IsAsciiWhitespace(data[j])
    ensures h.start == 0 || Str.IsAsciiWhitespace(data[h.start - 1])
    ensures h.end + 1 == |data| || Str.IsAsciiWhitespace(data[h.end + 1])
  {
    var ws := Str.WordsFrom(data, 0);
    ScanIsWordHits(data, names, 0, 0);
    var k := WordOf(data, names, ws, h);
    InWordHit(data, names, ws[k], h);
    WordFacts(data, k);
  }

  /** The word a hit of `WordHits` comes from. */
  lemma {:induction false} WordOf(data: string, names: map<string, string>, ws: seq<(nat, nat)>, h: Hit)
    returns (k: nat)
    requires InText(data, ws) && h in WordHits(data, names, ws)
    ensures k < |ws| && h in WordHit(data, names, ws[k])
  {
    if h in WordHit(data, names, ws[0]) {
      k := 0;
    } else {
      var k' := WordOf(data, names, ws[1..], h);
      k := k' + 1;
    }
  }

  /** A word of the text holds no blank and has blanks or the ends of the text on either
      side. */
  lemma WordFacts(data: string, k: nat)
    requires k < |Str.WordsFrom(data, 0)|
    ensures var w := Str.WordsFrom(data, 0)[k];
      && (forall j :: w.0 <= j < w.1 ==> !Str.IsAsciiWhitespace(data[j]))
      && (w.0 == 0 || Str.IsAsciiWhitespace(data[w.0 - 1]))
      && (w.1 == |data| || Str.IsAsciiWhitespace(data[w.1]))
  {
    var ws := Str.WordsFrom(data, 0);
    Str.WordsFromTokenized(data, 0);
    WordHasNoBlank(data, ws, k);
    if ws[k].0 > 0 {
      WordBoundary(data, ws, k, ws[k].0 - 1);
    }
    if ws[k].1 < |data| {
      WordBoundary(data, ws, k, ws[k].1);
    }
  }

  /** The hit of a word covers the word, ends inclusive, under the id of its name. */
  lemma InWordHit(data: string, names: map<string, string>, w: (nat, nat), h: Hit)
    requires w.0 < w.1 <= |data| && h in WordHit(data, names, w)
    ensures h.start == w.0 && h.end + 1 == w.1
    ensures data[h.start..h.end + 1] in names && names[data[h.start..h.end + 1]] == h.id
  {
  }

  /** A word holds no blank. */
  lemma WordHasNoBlank(data: string, ws: seq<(nat, nat)>, k: nat)
    requires Str.Tokenized(data, 0, ws) && k < |ws|
    ensures forall j :: ws[k].0 <= j < ws[k].1 ==> !Str.IsAsciiWhitespace(data[j])
  {
  }

  /** A character next to a word, outside it, is blank. */
  lemma WordBoundary(data: string, ws: seq<(nat, nat)>, k: nat, j: nat)
    requires Str.Tokenized(data, 0, ws) && k < |ws|
    requires j + 1 == ws[k].0 || j == ws[k].1
    requires j < |data|
    ensures Str.IsAsciiWhitespace(data[j])
  {
    forall m | 0 <= m < |ws| ensures !(ws[m].0 <= j < ws[m].1) {
      if m < k {
        assert ws[m].1 < ws[k].0;
      } else if m > k {
        assert ws[k].1 < ws[m].0;
      }
    }
    assert Str.Outside(ws, j);
  }

  // ------------------------------------------------------------------ grouping

  /** The ids of the hits. */
  function Ids(hits: seq<Hit>): (r: set<string>)
    ensures forall id :: id in r <==> exists k :: 0 <= k < |hits| && hits[k].id == id
  {
    set k | 0 <= k < |hits| :: hits[k].id
  }

  /** The ranges recorded for `id`, in scan order. */
  function RangesOf(hits: seq<Hit>, id: string): seq<(nat, nat)> {
    if hits == [] then []
    else
      var h := hits[|hits| - 1];
      RangesOf(hits[..|hits| - 1], id) + (if h.id == id then [(h.start, h.end)] else [])
  }

  /** The table `build_emotes` fills, hit by hit: `entry(id).or_default().push(range)`. */
  function Group(hits: seq<Hit>): map<string, seq<(nat, nat)>> {
    if hits == [] then map[]
    else
      var g := Group(hits[..|hits| - 1]);
      var h := hits[|hits| - 1];
      g[h.id := (if h.id in g then g[h.id] else []) + [(h.start, h.end)]]
  }

  /** One more hit extends the table by that hit. */
  lemma GroupSnoc(hits: seq<Hit>, h: Hit)
    ensures var g := Group(hits);
      Group(hits + [h]) == g[h.id := (if h.id in g then g[h.id] else []) + [(h.start, h.end)]]
  {
    assert (hits + [h])[..|hits|] == hits;
  }

  /** The table lists each id found, and under it every range found for it, in scan
      order, and nothing else. */
  lemma {:induction false} GroupIsRanges(hits: seq<Hit>)
    ensures Group(hits).Keys == Ids(hits)
    ensures forall id :: id in Group(hits) ==> Group(hits)[id] == RangesOf(hits, id) && Group(hits)[id] != []
  {
    if hits != [] {
      var init := hits[..|hits| - 1];
      var h := hits[|hits| - 1];
      GroupIsRanges(init);
      assert Ids(hits) == Ids(init) + {h.id} by {
        forall id | id in Ids(init) ensures id in Ids(hits) {
          var k :| 0 <= k < |init| && init[k].id == id;
          assert hits[k] == init[k];
        }
      }
      if h.id !in Ids(init) {
        RangesOfAbsent(init, h.id);
      }
    }
  }

  /** No hit for `id`, no ranges for it. */
  lemma {:induction false} RangesOfAbsent(hits: seq<Hit>, id: string)
    requires id !in Ids(hits)
    ensures RangesOf(hits, id) == []
  {
    if hits != [] {
      var init := hits[..|hits| - 1];
      assert id !in Ids(init) by {
        forall k | 0 <= k < |init| ensures init[k].id != id {
          assert init[k] == hits[k];
        }
      }
      RangesOfAbsent(init, id);
    }
  }

  // ------------------------------------------------------------------ the loops

  /** `emotes.entry(id).or_default().push((start, end))` when the lookup found `id`. */
  method Note(
    emotes: map<string, seq<(nat, nat)>>, ghost hits: seq<Hit>, o: Option<string>, start: nat, end: nat)
    returns (r: map<string, seq<(nat, nat)>>, ghost hits': seq<Hit>)
    requires emotes == Group(hits)
    ensures hits' == hits + (if o.Some? then [Hit(o.value, start, end)] else [])
    ensures r == Group(hits')
  {
    r, hits' := emotes, hits;
    if o.Some? {
      GroupSnoc(hits, Hit(o.value, start, end));
      r := r[o.value := (if o.value in r then r[o.value] else []) + [(start, end)]];
      hits' := hits + [Hit(o.value, start, end)];
    }
  }

  /** The first loop of `build_emotes` as written: the table it fills holds the hits of
      `ScanAsWritten`, grouped by id. */
  method CollectAsWritten(emoteMap: Emotes.EmoteMap, data: string)
    returns (emotes: map<string, seq<(nat, nat)>>)
    ensures emotes == Group(ScanAsWritten(data, emoteMap.nameToId, 0, 0))
  {
    ghost var names := emoteMap.nameToId;
    ghost var hits: seq<Hit> := [];
    emotes := map[];
    var start: nat := 0;
    var i: nat := 0;
    while i < |data|
      invariant start <= i <= |data|
      invariant emotes == Group(hits)
      invariant hits + ScanAsWritten(data, names, i, start) == ScanAsWritten(data, names, 0, 0)
      decreases |data| - i
    {
      if i == |data| - 1 {
        var o := emoteMap.GetEmoteId(data[start..]);
        emotes, hits := Note(emotes, hits, o, start, i);
        assert hits == ScanAsWritten(data, names, 0, 0);
        return;
      }
      if !Str.IsAsciiWhitespace(data[i]) {
        i := i + 1;
        continue;
      }
      var o := emoteMap.GetEmoteId(data[start..i]);
      ghost var before := hits;
      emotes, hits := Note(emotes, hits, o, start, i);
      assert hits == before + Lookup(names, data[start..i], start, i);
      ScanAsWrittenBlank(data, names, i, start);
      Associate(before, Lookup(names, data[start..i], start, i), ScanAsWritten(data, names, i + 1, i + 1));
      start := i + 1;
      i := i + 1;
    }
    assert ScanAsWritten(data, names, i, start) == [];
    assert hits + [] == hits;
  }

  /** At a blank short of the last index, the scan as written records the word up to the
      blank and goes on after it. */
  lemma ScanAsWrittenBlank(data: string, names: map<string, string>, i: nat, start: nat)
    requires start <= i < |data| - 1 && Str.IsAsciiWhitespace(data[i])
    ensures ScanAsWritten(data, names, i, start)
      == Lookup(names, data[start..i], start, i) + ScanAsWritten(data, names, i + 1, i + 1)
  {
  }

  /** The first loop of `build_emotes` with inclusive ends: the table it fills holds the
      hits of `Scan`, grouped by id. */
  method Collect(emoteMap: Emotes.EmoteMap, data: string)
    returns (emotes: map<string, seq<(nat, nat)>>)
    ensures emotes == Group(Scan(data, emoteMap.nameToId, 0, 0))
  {
    ghost var names := emoteMap.nameToId;
    ghost var hits: seq<Hit> := [];
    emotes := map[];
    var start: nat := 0;
    var i: nat := 0;
    while i < |data|
      invariant start <= i <= |data|
      invariant emotes == Group(hits)
      invariant hits + Scan(data, names, i, start) == Scan(data, names, 0, 0)
      decreases |data| - i
    {
      if i == |data| - 1 && !Str.IsAsciiWhitespace(data[i]) {
        var o := emoteMap.GetEmoteId(data[start..]);
        emotes, hits := Note(emotes, hits, o, start, i);
        assert hits == Scan(data, names, 0, 0);
        return;
      }
      if !Str.IsAsciiWhitespace(data[i]) {
        i := i + 1;
        continue;
      }
      ghost var before := hits;
      if start < i {
        var o := emoteMap.GetEmoteId(data[start..i]);
        emotes, hits := Note(emotes, hits, o, start, i - 1);
      }
      assert hits == before + Closed(data, names, i, start);
      ScanBlank(data, names, i, start);
      Associate(before, Closed(data, names, i, start), Scan(data, names, i + 1, i + 1));
      start := i + 1;
      i := i + 1;
    }
    assert Scan(data, names, i, start) == [];
    assert hits + [] == hits;
  }

  /** The hit, if any, of the word `data[start..i]` closed by a blank at `i`. */
  function Closed(data: string, names: map<string, string>, i: nat, start: nat): seq<Hit>
    requires start <= i <= |data|
  {
    if start < i then Lookup(names, data[start..i], start, i - 1) else []
  }

  /** At a blank, the corrected scan records the word it closes and goes on after it. */
  lemma ScanBlank(data: string, names: map<string, string>, i: nat, start: nat)
    requires start <= i < |data| && Str.IsAsciiWhitespace(data[i])
    ensures Scan(data, names, i, start) == Closed(data, names, i, start) + Scan(data, names, i + 1, i + 1)
  {
  }

  // ------------------------------------------------------------------ the tag text

  /** `format!("{start}-{end}")`. */
  function RangeText(p: (nat, nat)): string {
    Str.NatToString(p.0) + "-" + Str.NatToString(p.1)
  }

  /** One id's part of the tag: the id, a colon, and its ranges separated by commas. */
  function Entry(id: string, ranges: seq<(nat, nat)>): (r: string)
    ensures |r| > |id| && r[|id|] == ':'
  {
    id + ":" + Str.Join(RangeTexts(ranges), ",")
  }

  /** Each range written out, in order. */
  function RangeTexts(ranges: seq<(nat, nat)>): (r: seq<string>)
    ensures |r| == |ranges| && forall i :: 0 <= i < |ranges| ==> r[i] == RangeText(ranges[i])
  {
    seq(|ranges|, i requires 0 <= i < |ranges| => RangeText(ranges[i]))
  }

  /** The parts of the ids in `order`. */
  function Entries(emotes: map<string, seq<(nat, nat)>>, order: seq<string>): (r: seq<string>)
    requires forall k :: 0 <= k < |order| ==> order[k] in emotes
    ensures |r| == |order|
    ensures forall k :: 0 <= k < |order| ==> r[k] == Entry(order[k], emotes[order[k]])
  {
    seq(|order|, k requires 0 <= k < |order| && order[k] in emotes => Entry(order[k], emotes[order[k]]))
  }

  /** One more id, one more part at the end. */
  lemma EntriesSnoc(emotes: map<string, seq<(nat, nat)>>, order: seq<string>, id: string)
    requires forall k :: 0 <= k < |order| ==> order[k] in emotes
    requires id in emotes
    ensures Entries(emotes, order + [id]) == Entries(emotes, order) + [Entry(id, emotes[id])]
  {
  }

  /** `order` lists every key of `keys` once: an iteration order of a hash map. */
  ghost predicate Enumerates(order: seq<string>, keys: set<string>) {
    Distinct(order) && forall x :: x in order <==> x in keys
  }

  /** Part way through a map's keys: `order` lists, once each, the keys not in `rest`. */
  ghost predicate Listed(order: seq<string>, rest: set<string>, keys: set<string>) {
    && rest <= keys && Distinct(order)
    && (forall k :: 0 <= k < |order| ==> order[k] in keys)
    && (forall x :: x in order <==> x in keys && x !in rest)
  }

  /** Taking one more key from `rest`. */
  lemma ListedStep(order: seq<string>, rest: set<string>, keys: set<string>, id: string)
    requires Listed(order, rest, keys) && id in rest
    ensures Listed(order + [id], rest - {id}, keys)
  {
  }

  /** With nothing left, every key is listed once. */
  lemma ListedDone(order: seq<string>, keys: set<string>)
    requires Listed(order, {}, keys)
    ensures Enumerates(order, keys)
  {
  }

  /** `Join` with one more part at the end. */
  lemma {:induction false} JoinSnoc(parts: seq<string>, sep: string, p: string)
    ensures Str.Join(parts + [p], sep) == if parts == [] then p else Str.Join(parts, sep) + sep + p
    decreases |parts|
  {
    if |parts| > 1 {
      assert (parts + [p])[1..] == parts[1..] + [p];
      JoinSnoc(parts[1..], sep, p);
    } else if |parts| == 1 {
      assert (parts + [p])[1..] == [p];
    }
  }

  /** One more part joined: the first stands alone, a later one follows a separator. */
  lemma JoinPrefixStep(parts: seq<string>, sep: string, i: nat)
    requires i < |parts|
    ensures Str.Join(parts[..i + 1], sep) == if i == 0 then parts[0] else Str.Join(parts[..i], sep) + sep + parts[i]
  {
    assert parts[..i + 1] == parts[..i] + [parts[i]];
    JoinSnoc(parts[..i], sep, parts[i]);
  }

  /** The fold of `build_emotes` and its final test: the parts of every id, in whatever
      order the table yields them, joined by '/'; nothing when the table is empty. */
  method Render(emotes: map<string, seq<(nat, nat)>>) returns (r: Option<string>)
    ensures r.None? <==> emotes == map[]
    ensures r.Some? ==>
      exists order :: Enumerates(order, emotes.Keys) && r.value == Str.Join(Entries(emotes, order), "/")
  {
    var a: string := [];
    var rest := emotes.Keys;
    ghost var order: seq<string> := [];
    while rest != {}
      invariant Listed(order, rest, emotes.Keys)
      invariant a == Str.Join(Entries(emotes, order), "/")
      invariant a == [] <==> order == []
      decreases |rest|
    {
      var id :| id in rest;
      var part := EntryText(id, emotes[id]);
      JoinSnoc(Entries(emotes, order), "/", part);
      EntriesSnoc(emotes, order, id);
      ListedStep(order, rest, emotes.Keys, id);
      if a != [] {
        a := a + "/";
      }
      a := a + part;
      order := order + [id];
      rest := rest - {id};
    }
    ListedDone(order, emotes.Keys);
    if a == [] {
      return None;
    }
    return Some(a);
  }

  /** The inner loop of the fold: the id, a colon, and each range, commas between. */
  method EntryText(id: string, list: seq<(nat, nat)>) returns (a: string)
    ensures a == Entry(id, list)
  {
    ghost var texts := RangeTexts(list);
    a := id + ":";
    for i := 0 to |list|
      invariant a == id + ":" + Str.Join(texts[..i], ",")
    {
      JoinPrefixStep(texts, ",", i);
      if i != 0 {
        a := a + ",";
      }
      a := a + RangeText(list[i]);
    }
    assert texts[..|list|] == texts;
  }

  /** `build_emotes` as written. */
  method BuildEmotesAsWritten(emoteMap: Emotes.EmoteMap, data: string) returns (r: Option<string>)
    ensures r.None? <==> ScanAsWritten(data, emoteMap.nameToId, 0, 0) == []
    ensures r.Some? ==> var g := Group(ScanAsWritten(data, emoteMap.nameToId, 0, 0));
      exists order :: Enumerates(order, g.Keys) && r.value == Str.Join(Entries(g, order), "/")
  {
    var emotes := CollectAsWritten(emoteMap, data);
    GroupEmpty(ScanAsWritten(data, emoteMap.nameToId, 0, 0));
    r := Render(emotes);
  }

  /** `build_emotes` with inclusive ends: nothing exactly when no word of the text names
      an emote; otherwise the tag lists every such word under its id. */
  method BuildEmotes(emoteMap: Emotes.EmoteMap, data: string) returns (r: Option<string>)
    ensures r.None? <==> Scan(data, emoteMap.nameToId, 0, 0) == []
    ensures r.Some? ==> var g := Group(Scan(data, emoteMap.nameToId, 0, 0));
      exists order :: Enumerates(order, g.Keys) && r.value == Str.Join(Entries(g, order), "/")
  {
    var emotes := Collect(emoteMap, data);
    GroupEmpty(Scan(data, emoteMap.nameToId, 0, 0));
    r := Render(emotes);
  }

  /** The table is empty exactly when nothing was found. */
  lemma GroupEmpty(hits: seq<Hit>)
    ensures Group(hits) == map[] <==> hits == []
  {
    if hits != [] {
      assert hits[|hits| - 1].id in Group(hits);
    }
  }

  // ------------------------------------------------------------------ the two scans differ

  /** Both scans pass over the inside of a word without recording anything. */
  lemma {:induction false} ScansSkipWord(data: string, names: map<string, string>, i: nat, j: nat, start: nat)
    requires start <= i <= j < |data|
    requires forall k :: i <= k < j ==> !Str.IsAsciiWhitespace(data[k])
    ensures ScanAsWritten(data, names, i, start) == ScanAsWritten(data, names, j, start)
    ensures Scan(data, names, i, start) == Scan(data, names, j, start)
    decreases j - i
  {
    if i < j {
      ScansSkipWord(data, names, i + 1, j, start);
    }
  }

  /** As written, a word followed by a blank is recorded up to the blank: in "Kappa Kappa"
      the first name is given as 0-5, which takes in the space, while the last is given as
      6-10, its own last index. */
  lemma AsWrittenTakesInBlank()
    ensures var data := "Kappa Kappa"; var names := map["Kappa" := "25"];
      && ScanAsWritten(data, names, 0, 0) == [Hit("25", 0, 5), Hit("25", 6, 10)]
      && data[0..5 + 1] !in names
      && Scan(data, names, 0, 0) == [Hit("25", 0, 4), Hit("25", 6, 10)]
  {
    var data := "Kappa Kappa";
    var names := map["Kappa" := "25"];
    assert data[0..5] == "Kappa" && data[6..] == "Kappa" && data[0..6] == "Kappa ";
    ScansSkipWord(data, names, 0, 5, 0);
    ScansSkipWord(data, names, 6, 10, 6);
    assert ScanAsWritten(data, names, 5, 0) == [Hit("25", 0, 5)] + ScanAsWritten(data, names, 6, 6);
    assert Scan(data, names, 5, 0) == [Hit("25", 0, 4)] + Scan(data, names, 6, 6);
  }

  /** As written, a blank at the end of the text hides the word before it: "Kappa " is
      looked up whole, blank included, and nothing is found. */
  lemma AsWrittenLosesLastWord()
    ensures var data := "Kappa "; var names := map["Kappa" := "25"];
      && ScanAsWritten(data, names, 0, 0) == []
      && Scan(data, names, 0, 0) == [Hit("25", 0, 4)]
  {
    var data := "Kappa ";
    var names := map["Kappa" := "25"];
    assert data[0..5] == "Kappa" && data[0..] == "Kappa ";
    ScansSkipWord(data, names, 0, 5, 0);
    assert Scan(data, names, 5, 0) == [Hit("25", 0, 4)] + Scan(data, names, 6, 6);
  }
}
