/** The state file (`state/save_state.rs`): the joined channel names and the active index
    are saved, and a later start rebuilds the channels from them. */
module SavedStates {
  import opened Wrappers
  import opened Maps
  import Str = Text
  import opened Queues
  import opened Channels
  import opened States

  /** The saved record: channel names (an insertion-ordered set) and the active index. */
  datatype Saved = Saved(channels: seq<string>, active: nat)

  /** The position of the first `x` in `s`. */
  function FirstIndex(s: seq<string>, x: string): (i: nat)
    requires x in s
    ensures i < |s| && s[i] == x && x !in s[..i]
  {
    if s[0] == x then 0
    else
      assert x in s[1..] by { assert s == [s[0]] + s[1..]; }
      var j := FirstIndex(s[1..], x);
      assert s[..j + 1] == [s[0]] + s[1..][..j];
      j + 1
  }

  /** Appending keeps the first position of everything already present. */
  lemma FirstIndexSnoc(s: seq<string>, x: string, y: string)
    requires y in s
    ensures y in s + [x] && FirstIndex(s + [x], y) == FirstIndex(s, y)
  {
    var a := FirstIndex(s + [x], y);
    var b := FirstIndex(s, y);
    assert (s + [x])[b] == y;
    assert a <= b by { assert y !in (s + [x])[..a]; }
    assert s[a] == y && s[..b] == (s + [x])[..b];
  }

  /** Collecting into an insertion-ordered set: a repeated name keeps its first place. */
  function Dedup(s: seq<string>): (r: seq<string>)
    ensures Distinct(r)
    ensures forall x :: x in r <==> x in s
    ensures forall i, j :: 0 <= i < j < |r| ==> FirstIndex(s, r[i]) < FirstIndex(s, r[j])
    ensures |r| <= |s|
  {
    if s == [] then []
    else
      var d := Dedup(s[..|s| - 1]);
      var x := s[|s| - 1];
      assert s == s[..|s| - 1] + [x];
      if x in d then
        DedupKeep(s[..|s| - 1], x, d);
        d
      else
        DedupAdd(s[..|s| - 1], x, d);
        d + [x]
  }

  /** A name seen before adds nothing: the kept names keep their first places. */
  lemma DedupKeep(init: seq<string>, x: string, d: seq<string>)
    requires x in d && forall y :: y in d <==> y in init
    requires forall i, j :: 0 <= i < j < |d| ==> FirstIndex(init, d[i]) < FirstIndex(init, d[j])
    ensures forall y :: y in d <==> y in init + [x]
    ensures forall i, j :: 0 <= i < j < |d| ==> FirstIndex(init + [x], d[i]) < FirstIndex(init + [x], d[j])
  {
    forall i, j | 0 <= i < j < |d| ensures FirstIndex(init + [x], d[i]) < FirstIndex(init + [x], d[j]) {
      FirstIndexSnoc(init, x, d[i]);
      FirstIndexSnoc(init, x, d[j]);
    }
  }

  /** A new name goes last, behind every name already kept. */
  lemma DedupAdd(init: seq<string>, x: string, d: seq<string>)
    requires x !in d && Distinct(d) && forall y :: y in d <==> y in init
    requires forall i, j :: 0 <= i < j < |d| ==> FirstIndex(init, d[i]) < FirstIndex(init, d[j])
    ensures Distinct(d + [x]) && forall y :: y in d + [x] <==> y in init + [x]
    ensures forall i, j :: 0 <= i < j < |d| + 1 ==>
      FirstIndex(init + [x], (d + [x])[i]) < FirstIndex(init + [x], (d + [x])[j])
  {
    var s, r := init + [x], d + [x];
    assert FirstIndex(s, x) == |init| by {
      assert s[..|init|] == init;
    }
    forall i, j | 0 <= i < j < |r| ensures FirstIndex(s, r[i]) < FirstIndex(s, r[j]) {
      FirstIndexSnoc(init, x, d[i]);
      if j < |d| {
        FirstIndexSnoc(init, x, d[j]);
      }
    }
  }

  /** Names with no repeats are kept as they are, in order. */
  lemma {:induction false} DedupDistinct(s: seq<string>)
    requires Distinct(s)
    ensures Dedup(s) == s
  {
    if s != [] {
      var init := s[..|s| - 1];
      assert Distinct(init);
      DedupDistinct(init);
      assert s[|s| - 1] !in init;
      assert init + [s[|s| - 1]] == s;
    }
  }

  /** `active.min(len.saturating_sub(1))`. */
  function Clamp(active: nat, len: nat): (r: nat)
    ensures r <= active
    ensures len > 0 ==> r < len
    ensures len == 0 ==> r == 0
    ensures active < len ==> r == active
  {
    var last := if len == 0 then 0 else len - 1;
    if active < last then active else last
  }

  /** `save`: the record written is the channel names, first occurrence kept, and the
      active index as it is. */
  function Save(state: State): (r: Saved)
    reads state
    ensures r.active == state.active
    ensures Distinct(r.channels)
    ensures forall x :: x in r.channels <==> exists i :: 0 <= i < |state.channels| && state.channels[i].name == x
    ensures forall x :: x in r.channels ==> x in Names(state.channels)
    ensures forall i, j :: 0 <= i < j < |r.channels| ==>
      FirstIndex(Names(state.channels), r.channels[i]) < FirstIndex(Names(state.channels), r.channels[j])
    ensures Distinct(Names(state.channels)) ==> r.channels == Names(state.channels)
  {
    var names := Names(state.channels);
    assert Distinct(names) ==> Dedup(names) == names by {
      if Distinct(names) {
        DedupDistinct(names);
      }
    }
    NamesAreChannelNames(state.channels);
    Saved(Dedup(names), state.active)
  }

  /** A name is listed exactly when some channel carries it. */
  lemma NamesAreChannelNames(channels: seq<Channel>)
    ensures forall x :: x in Names(channels) <==> exists i :: 0 <= i < |channels| && channels[i].name == x
  {
    var names := Names(channels);
    forall x | x in names ensures exists i :: 0 <= i < |channels| && channels[i].name == x {
      var i :| 0 <= i < |names| && names[i] == x;
    }
    forall i | 0 <= i < |channels| ensures channels[i].name in names {
      assert names[i] == channels[i].name;
    }
  }

  /** `load`: nothing when the file cannot be read or parsed (`file` is `None`);
      otherwise one fresh channel per distinct saved name, in order, each named without a
      leading '#', the active index clamped into range, and no identity. */
  method Load(file: Option<Saved>) returns (r: Option<State>)
    ensures r.None? <==> file.None?
    ensures r.Some? ==>
      var names := Dedup(file.value.channels);
      && fresh(r.value) && r.value.Valid()
      && |r.value.channels| == |names|
      && (forall i :: 0 <= i < |names| ==>
            && fresh(r.value.channels[i]) && fresh(r.value.channels[i].messages)
            && r.value.channels[i].name == Str.StripPrefix(names[i], '#')
            && r.value.channels[i].marker == None
            && r.value.channels[i].messages.inner == [])
      && r.value.active == Clamp(file.value.active, |names|)
      && r.value.identity == None
  {
    if file.None? {
      return None;
    }
    var names := Dedup(file.value.channels);
    var state := new State();
    for i := 0 to |names|
      invariant state.Valid() && fresh(state) && fresh(state.Repr)
      invariant |state.channels| == i
      invariant forall j :: 0 <= j < i ==>
        && fresh(state.channels[j]) && fresh(state.channels[j].messages)
        && state.channels[j].name == Str.StripPrefix(names[j], '#')
        && state.channels[j].marker == None && state.channels[j].messages.inner == []
      invariant state.active == 0 && state.identity == None
    {
      var ch := new Channel(names[i]);
      state.Append(ch);
    }
    state.Activate(Clamp(file.value.active, |names|));
    return Some(state);
  }

  /** Saving and loading again gives back the same channel names and active index, when
      the names are bare, distinct, and the active index is in range. */
  method SaveLoadRoundTrip(state: State) returns (r: Option<State>)
    requires Distinct(Names(state.channels))
    requires forall i :: 0 <= i < |state.channels| ==> !Str.StartsWith(state.channels[i].name, "#")
    requires state.active < |state.channels|
    ensures r.Some?
    ensures Names(r.value.channels) == Names(state.channels)
    ensures r.value.active == state.active
  {
    var saved := Save(state);
    r := Load(Some(saved));
    DedupDistinct(saved.channels);
    LoadedNames(r.value.channels, Names(state.channels));
  }

  /** Channels made from bare names carry those names. */
  lemma LoadedNames(loaded: seq<Channel>, names: seq<string>)
    requires |loaded| == |names|
    requires forall i :: 0 <= i < |names| ==> loaded[i].name == Str.StripPrefix(names[i], '#')
    requires forall i :: 0 <= i < |names| ==> !Str.StartsWith(names[i], "#")
    ensures Names(loaded) == names
  {
    forall i | 0 <= i < |names| ensures loaded[i].name == names[i] {
      BareNameKept(names[i]);
    }
  }

  /** A name whose first character is '#' starts with "#", so a name that does not
      loses nothing to `StripPrefix`. */
  lemma BareNameKept(name: string)
    ensures !Str.StartsWith(name, "#") ==> Str.StripPrefix(name, '#') == name
  {
    if |name| > 0 && name[0] == '#' {
      assert name[..1] == "#";
    }
  }
}
