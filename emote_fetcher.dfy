/** The emote fetcher (`src/runtime/emote_fetcher.rs`): hands emote ids to a background
    worker at most once each; the worker probes the CDN for the animated image, then the
    static one, and reports the first URL that answers. */
module EmoteFetching {
  import opened Wrappers
  import opened Mpsc
  import opened Maps

  const CdnBase: string := "https://static-cdn.jtvnw.net/emoticons/v2/"

  /** The emote CDN address of one rendition of an emote. */
  function EmoteCdnUrl(id: string, format: string, themeMode: string, scale: string): string {
    CdnBase + id + "/" + format + "/" + themeMode + "/" + scale
  }

  function AnimatedUrl(id: string): string {
    EmoteCdnUrl(id, "animated", "dark", "1.0")
  }

  function StaticUrl(id: string): string {
    EmoteCdnUrl(id, "static", "dark", "1.0")
  }

  /** The two probe URLs share the address up to the format segment and the dark 1.0
      suffix after it, and differ in the format segment, so they are never the same. */
  lemma ProbeUrlsDifferOnlyInFormat(id: string)
    ensures var head := CdnBase + id + "/";
      && AnimatedUrl(id) == head + "animated" + "/dark/1.0"
      && StaticUrl(id) == head + "static" + "/dark/1.0"
      && AnimatedUrl(id) != StaticUrl(id)
  {
    var head := CdnBase + id + "/";
    assert AnimatedUrl(id)[|head|] == 'a';
    assert StaticUrl(id)[|head|] == 's';
  }

  class EmoteFetcher {
    var seen: set<string>
    /** Every id ever handed to the worker, in order. */
    ghost var sent: seq<string>
    /** Ids on their way to the worker. */
    const requests: Mailbox<string>
    /** (id, url) pairs on their way back from the worker. */
    const ready: Mailbox<(string, string)>

    ghost predicate Valid()
      reads this
    {
      && Distinct(sent)
      && seen == set x | x in sent
    }

    constructor Create()
      ensures Valid() && seen == {} && sent == []
      ensures fresh(requests) && fresh(ready) && requests.items == [] && ready.items == []
    {
      seen := {};
      sent := [];
      requests := new Mailbox();
      ready := new Mailbox();
    }

    /** `lookup`: an id not seen before is marked seen and sent to the worker; a seen id
        is ignored. So every id reaches the worker at most once. */
    method Lookup(id: string)
      requires Valid()
      modifies this, requests
      ensures Valid()
      ensures seen == old(seen) + {id}
      ensures id in old(seen) ==> requests.items == old(requests.items) && sent == old(sent)
      ensures id !in old(seen) ==>
        requests.items == old(requests.items) + [id] && sent == old(sent) + [id]
    {
      if id in seen {
        return;
      }
      seen := seen + {id};
      sent := sent + [id];
      requests.Send(id);
    }

    /** `poll`: the oldest (id, url) the worker reported, if any. */
    method Poll() returns (o: Option<(string, string)>)
      modifies ready
      ensures old(ready.items) == [] ==> o == None && ready.items == []
      ensures old(ready.items) != [] ==>
        o == Some(old(ready.items)[0]) && ready.items == old(ready.items)[1..]
    {
      o := ready.TryRecv();
    }
  }

  /** One turn of the worker: take the next id; probe the animated URL and, only if that
      fails, the static one; report the first that answers. `answers(url)` is whether the
      CDN answers a GET of `url` with a success status. */
  method ServeOne(requests: Mailbox<string>, ready: Mailbox<(string, string)>, answers: string -> bool)
    returns (probed: seq<string>)
    modifies requests, ready
    ensures old(requests.items) == [] ==>
      probed == [] && requests.items == [] && ready.items == old(ready.items)
    ensures old(requests.items) != [] ==>
      var id := old(requests.items)[0];
      && requests.items == old(requests.items)[1..]
      && probed == (if answers(AnimatedUrl(id)) then [AnimatedUrl(id)] else [AnimatedUrl(id), StaticUrl(id)])
      && ready.items == old(ready.items)
         + (if answers(AnimatedUrl(id)) then [(id, AnimatedUrl(id))]
            else if answers(StaticUrl(id)) then [(id, StaticUrl(id))]
            else [])
  {
    var next := requests.TryRecv();
    probed := [];
    if next.None? {
      return;
    }
    var id := next.value;
    var animated := EmoteCdnUrl(id, "animated", "dark", "1.0");
    probed := probed + [animated];
    if answers(animated) {
      ready.Send((id, animated));
      return;
    }
    var still := EmoteCdnUrl(id, "static", "dark", "1.0");
    probed := probed + [still];
    if answers(still) {
      ready.Send((id, still));
    }
  }
}
