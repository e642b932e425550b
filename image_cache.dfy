/** The image cache (`src/runtime/image_cache.rs`): images keyed by their URL, fetched at
    most once each; a fetch that fails leaves its URL outstanding for good. */
module Images {
  import opened Wrappers
  import opened Maps
  import opened Resolver

  /** A decoded image; its content does not matter to the cache. */
  datatype Image = Image(bytes: seq<bv8>)

  /** The entries a batch of finished fetches writes, in order: a failed fetch
      (`None`) writes nothing. */
  function ImageUpdates(done: seq<(string, Option<Image>)>): seq<(string, Image)> {
    if done == [] then []
    else
      var last := done[|done| - 1];
      ImageUpdates(done[..|done| - 1]) + (if last.1.Some? then [(last.0, last.1.value)] else [])
  }

  /** The URLs written are exactly those of the successful fetches. */
  lemma {:induction false} ImageUpdatesKeys(done: seq<(string, Option<Image>)>)
    ensures Firsts(ImageUpdates(done)) == set i | 0 <= i < |done| && done[i].1.Some? :: done[i].0
  {
    if done != [] {
      var init := done[..|done| - 1];
      var us := ImageUpdates(done);
      ImageUpdatesKeys(init);
      var last := done[|done| - 1];
      if last.1.Some? {
        FirstsSnoc(us);
        assert us[..|us| - 1] == ImageUpdates(init);
      } else {
        assert us == ImageUpdates(init);
      }
      var lhs := set i | 0 <= i < |done| && done[i].1.Some? :: done[i].0;
      var rhs := set i | 0 <= i < |init| && init[i].1.Some? :: init[i].0;
      assert lhs == rhs + (if last.1.Some? then {last.0} else {}) by {
        forall u | u in lhs ensures u in rhs + (if last.1.Some? then {last.0} else {}) {
          var i :| 0 <= i < |done| && done[i].1.Some? && done[i].0 == u;
          if i < |init| { assert init[i] == done[i]; }
        }
        forall u | u in rhs ensures u in lhs {
          var i :| 0 <= i < |init| && init[i].1.Some? && init[i].0 == u;
          assert done[i] == init[i];
        }
      }
    }
  }

  /** A URL whose fetches all failed keeps its entry: outstanding stays outstanding, so it
      is never fetched again. */
  lemma FailedFetchStaysOutstanding(
    m: map<string, Ready<Image>>, done: seq<(string, Option<Image>)>, url: string)
    requires url in m
    requires forall i :: 0 <= i < |done| && done[i].0 == url ==> done[i].1.None?
    ensures url in SetAll(m, ImageUpdates(done)) && SetAll(m, ImageUpdates(done))[url] == m[url]
  {
    ImageUpdatesKeys(done);
    SetAllUntouched(m, ImageUpdates(done), url);
  }

  /** A successful fetch stores its image under the URL it was fetched for. */
  lemma FetchedImageIsStored(
    m: map<string, Ready<Image>>, done: seq<(string, Option<Image>)>, i: nat)
    requires i < |done| && done[i].1.Some?
    ensures var url := done[i].0;
      url in SetAll(m, ImageUpdates(done)) && IsReady(SetAll(m, ImageUpdates(done))[url])
  {
    ImageUpdatesKeys(done);
    assert done[i].0 in Firsts(ImageUpdates(done));
    SetAllLastWins(m, ImageUpdates(done), done[i].0);
  }

  /** A finished fetch that was started for `url` hands its result over at the next
      poll, so a successful one leaves `url` itself resolved. */
  lemma RequestedImageIsStored(
    m: map<string, Ready<Image>>, ps: seq<Fut<(string, Option<Image>)>>, k: nat, url: string)
    requires k < |ps| && ps[k].Valid() && ps[k].slot.Some? && ps[k].slot.value.1.Some?
    requires forall r :: ps[k].admits(r) ==> r.0 == url
    ensures url in SetAll(m, ImageUpdates(Completed(ps))) && IsReady(SetAll(m, ImageUpdates(Completed(ps)))[url])
  {
    var i := CompletedHas(ps, k);
    FetchedImageIsStored(m, Completed(ps), i);
  }

  class ImageCache {
    const images: ResolverMap<string, Image, (string, Option<Image>)>

    constructor ()
      ensures fresh(images) && images.entries == map[] && images.pending == []
    {
      images := new ResolverMap();
    }

    /** `set`: the URL is resolved to `image` at once, whatever it was before. */
    method Set(url: string, image: Image)
      modifies images
      ensures images.entries == SetEntry(old(images.entries), url, image)
      ensures images.pending == old(images.pending)
    {
      var entry := images.Update();
      entry.Set(url, image);
    }

    /** `get_image`: the image if it has arrived; the first request for a URL starts its
        one and only fetch. */
    method GetImage(url: string) returns (o: Option<Image>)
      modifies images
      ensures o == old(images.TryGet(url))
      ensures url in old(images.entries) ==>
        images.entries == old(images.entries) && images.pending == old(images.pending)
      ensures url !in old(images.entries) ==>
        && images.entries == old(images.entries)[url := NotReady]
        && |images.pending| == |old(images.pending)| + 1
        && images.pending[..|old(images.pending)|] == old(images.pending)
        && fresh(images.pending[|old(images.pending)|])
        && forall r :: images.pending[|old(images.pending)|].admits(r) <==> r.0 == url
    {
      o := images.GetOrUpdate(url, (r: (string, Option<Image>)) => r.0 == url);
    }

    /** `poll`: every finished fetch is handed over once; a successful one stores its
        image, a failed one is only reported. */
    method Poll()
      modifies images
      ensures images.entries == SetAll(old(images.entries), ImageUpdates(old(Completed(images.pending))))
      ensures images.pending == old(Unfinished(images.pending))
    {
      var done := images.Poll();
      var entry := images.Update();
      ghost var start := images.entries;
      for i := 0 to |done|
        invariant images.entries == SetAll(start, ImageUpdates(done[..i]))
        invariant images.pending == old(Unfinished(images.pending))
      {
        assert done[..i + 1][..i] == done[..i];
        var (url, fetched) := done[i];
        ghost var before := ImageUpdates(done[..i]);
        match fetched {
          case Some(image) =>
            entry.Set(url, image);
            assert ImageUpdates(done[..i + 1]) == before + [(url, image)];
            assert (before + [(url, image)])[..|before|] == before;
          case None =>
            assert ImageUpdates(done[..i + 1]) == before;
        }
      }
      assert done[..|done|] == done;
    }
  }
}
