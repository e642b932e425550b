# vohiyo core, modelled in Dafny

vohiyo is a desktop Twitch chat client. This project models its core in Dafny and proves
properties of that model:

- **Resolver caches.** Each cache (`resolver/`) maps a key to a value that is either
  resolved or still being fetched in the background. Four domain caches are built on it:
  images, users, games and emotes/badges. The stream-status checker polls Helix in batches.
- **Helix client** (`helix.rs`). It shapes each response into what its caller wants. A large
  query is split into requests of at most 100 items, and the answers are merged in
  completion order. A request that comes back 401 is retried with a fresh bearer token.
- **Chat connection** (`twitch/`). The connection task runs as a transition system: the
  queued commands, the start signal, reconnects, pings, and the rejoin after
  GLOBALUSERSTATE. The UI side is the `Client`, which turns events into status changes and
  messages and completes the local echo. The `Writer` queues commands. The `Identity`
  keeps badges per channel.
- **Application state.** This covers:
  - the bounded message `Queue` and the `Channel`;
  - `Message::from_pm`, which splits a chat line into text, link and emote spans;
  - the settings merge and the credential validators;
  - the input-line parser;
  - `ReadyApp::handle_message` with the view switch;
  - the emote-tag builder of the main view.

State that the source updates in place is modelled by classes whose methods carry
`modifies` clauses. Pure logic is modelled by functions and lemmas. A Tokio channel is a
`Mailbox`, a queue whose two ends are held by different objects. Whatever a background task
or the network delivers arrives as a parameter or through a result slot filled by the
environment:

- a `Fut`'s slot, which only ever holds a result its fetch admits (a badge fetch passed
  through `wrap` fixes the channel tag of its list);
- a Helix `Answer`;
- a connection outcome;
- a parsed server line.

## Model

| member | source | states |
|---|---|---|
| Apps.ValidateLength | src/app/mod.rs:254-263 | passes exactly when the length equals the requirement; otherwise reports the length found and the length required |
| Apps.UserName | src/app/mod.rs:207-215 | fails, with `EmptyInput`, exactly when the trimmed name is empty |
| Apps.UserNameBlank | src/app/mod.rs:207-215 | a user name is refused exactly when every character of it is white space |
| Apps.OauthToken | src/app/mod.rs:217-230 | blank gives `EmptyInput`, a missing "oauth:" prefix gives `TokenPrefix`, a length other than 36 gives `InvalidLength(len, 36)`, in that order; passes exactly when prefixed and 36 long |
| Apps.OauthTokenAccepts | src/app/mod.rs:217-230 | "oauth:" followed by 30 characters, not ending in white space, is accepted |
| Apps.ClientCredential | src/app/mod.rs:232-252 | client id and secret: blank gives `EmptyInput`, a trimmed length other than 30 gives `InvalidLength(len, 30)`; passes exactly at length 30 |
| Apps.Validate | src/app/mod.rs:192-205 | passes exactly when all four credentials are well formed; otherwise the first failure of user name, token, client id, client secret, in that order |
| Apps.Merge | src/app/mod.rs:54-74 | with any credential variable set, all four credentials come from the environment (unset ones empty) and the stored channels and active index are kept; with none set, the stored settings are unchanged |
| Apps.Create | src/app/mod.rs:76-91 | the chat screen opens exactly when merged settings exist and validate, with those settings; otherwise the configuration screen opens with the merged settings, or the defaults when there are none |
| ReadyApps.SwitchView | src/app/ready.rs:250-258 | the connected screen shows the main view exactly when there are channels, and a view already consistent with the channel list is kept |
| ReadyApps.SwitchViewSettles | src/app/ready.rs:250-258 | switching a second time changes nothing |
| ReadyApps.HistoryStore.Insert | src/app/ready.rs:148 | the history gains the line at its end |
| ReadyApps.ReadyApp.HandleJoin | src/app/ready.rs:121-134 | a channel already listed (names compared without a leading '#') only becomes active; a new one is appended, becomes active at the old length, and has its user record requested |
| ReadyApps.ReadyApp.Receive | src/app/ready.rs:150-168 | the message built from the line by `from_pm`, with `parse_text`'s positions corrected (Findings row 1), not old, not local, is pushed onto the first channel whose name is the line's channel without '#'; its marker is cleared; no other buffer and no channel list change; its emote names are recorded andthe fetcher is sent, once each and in order of first appearance, every tag id with no probed URL that it has not seen (`Emotes.Requests`); the probed URLs and the badge-list tags are kept |
| ReadyApps.ReadyApp.HandleMessage | src/app/ready.rs:119-171 | a join is handled exactly as `HandleJoin` says: a listed channel (compared with '#' stripped) only becomes active, and a new one is appended under its stripped name, made active and has its user record requested; an invalid-credentials message opens the Twitch credentials screen; every received or echoed line is stored in the history; only a received line reaches its channel's buffer, built by `from_pm` with `parse_text`'s positions corrected (Findings row 1); a line for an unlisted channel is excluded by the precondition (the source panics); a received line records its emote names and asks the fetcher as `Receive` does, and any other message leaves the emote map and the fetcher untouched |
| Channels.Channel.constructor | src/state/channel.rs:15-22 | the name loses one leading '#'; no marker, an empty buffer and an empty queue of capacity 1000 |
| Channels.Channel.Push | src/state/channel.rs:24-27 | clears the marker and pushes the message onto the bounded queue |
| Channels.Channel.MarkEndOfHistory | src/state/channel.rs:29-31 | the marker becomes `Some(uuid)` |
| Channels.PopulateMessages | src/queue.rs:34-55 | every stored line becomes an old, non-local message built by `from_pm`, with `parse_text`'s positions corrected (Findings row 1), in order; all are appended and only the newest `max` kept; every emote name of the batch is recorded; the fetcher is sent, once each and in order of first appearance, every tag id of the batch with no probed URL that it has not seen (`Emotes.Requests`); the probed URLs and the badge-list tags are kept |
| Channels.HistoryNameIds | src/queue.rs:39-49 | every emote name a line of the batch registers is among the names the batch registers |
| Channels.Build | src/state/message.rs:19-95 | the message is the one `from_pm` makes, with `parse_text`'s positions corrected (Findings row 1), and the emote names of its tags are recorded in order; the fetcher is sent, once each and in order of first appearance, every tag id with no probed URL that it has not seen (`Emotes.Requests`); the probed URLs and the badge-list tags are kept |
| Queues.NewestIsBoundedSuffix | src/queue.rs:21-26 | what a bounded buffer keeps is at most its capacity, a suffix of what was added, and everything when it fits |
| Queues.NewestOfPush | src/queue.rs:21-26 | pushing onto a buffer keeps the newest `max - 1` old entries and the new one last |
| Queues.NewestIdempotent | src/queue.rs:51-54 | trimming to the newest `max` twice is trimming once |
| Queues.Queue.WithCapacity | src/queue.rs:13-19 | requires a non-zero capacity, as the source asserts; starts empty |
| Queues.Queue.Push | src/queue.rs:21-26 | the entries become the newest `max` of the old entries and the item, the item last; nothing is lost when there was room |
| Queues.Queue.Iter | src/queue.rs:28-30 | the entries oldest first, at most `max` of them |
| Queues.Queue.Populate | src/queue.rs:39-54 | the entries become the newest `max` of the old entries followed by the new ones |
| SavedStates.Dedup | src/state/save_state.rs:13-35 | collecting into an insertion-ordered set: no repeats, the same members, each name placed by its first occurrence in the input (earlier first occurrence, earlier place), no longer than the input |
| SavedStates.DedupDistinct | src/state/save_state.rs:13-17 | names without repeats are kept as they are |
| SavedStates.Clamp | src/state/save_state.rs:38 | `active.min(len.saturating_sub(1))`: never above `active`, in range when there are channels, 0 when there are none |
| SavedStates.Save | src/state/save_state.rs:12-26 | the saved names are the channel names without repeats, in the order of their first occurrences (exactly the names when they are distinct), and the active index as it is |
| SavedStates.Load | src/state/save_state.rs:28-46 | nothing when the file is unreadable or malformed; otherwise one fresh channel per distinct saved name, in order, named without a leading '#', with the active index clamped and no identity |
| SavedStates.SaveLoadRoundTrip | src/state/save_state.rs:12-46 | saving and loading gives back the same names and active index when the names are bare and distinct and the index is in range |
| SavedStates.BareNameKept | src/state/channel.rs:17 | a name not starting with '#' is kept by `Channel::new` |
| States.Position | src/app/ready.rs:122-125 | `position`: the first index holding the value, none exactly when it is absent |
| States.State.constructor | src/state/mod.rs:33-38 | no channels, the first active, no identity |
| States.State.Append | src/app/ready.rs:129 | one more channel at the end, with a buffer of its own |
| States.State.Activate | src/app/ready.rs:122-131 | only the active index changes |
| States.State.Join | src/app/ready.rs:121-134 | a listed channel (compared without '#') becomes active; otherwise a fresh empty channel named without '#' is appended and becomes active |
| States.State.PushTo | src/state/channel.rs:24-27 | only the channel at that position changes: its marker is cleared and its buffer gains the message |
| States.State.Deliver | src/app/ready.rs:150-168 | the first channel named like the key gets the message; every other buffer is unchanged |
| Messages.ParseText | src/state/message.rs:20-52 | appends exactly the spans of the trimmed input as `TextSpans` reads them (positions corrected, see Findings) |
| Messages.ParseWord | src/state/message.rs:31-47 | one turn of the loop: the spans so far and the spans still to come remain the whole reading |
| Messages.TextAfterLastWord | src/state/message.rs:49-51 | the text after the cursor, when there is any, completes the spans |
| Messages.ParseTextKeepsEveryWord | src/state/message.rs:28-51 | the text and link spans are non-empty, non-overlapping slices of the trimmed input in order, every non-blank character lies in one, and the links are exactly the words the URL parser accepts |
| Messages.PiecesInOrder | src/state/message.rs:31-51 | the pieces lie after the cursor, are not empty and do not overlap |
| Messages.PiecesCoverText | src/state/message.rs:31-51 | nothing but white space is left out of the pieces |
| Messages.LinkPiecesAreLinkWords | src/state/message.rs:32-36 | the link pieces are exactly the words that are links |
| Messages.NoEmotesIn | src/state/message.rs:20-52 | `parse_text` makes no emote spans |
| Messages.AsWrittenDropsWordBeforeLink | src/state/message.rs:33-43 | as written, "a  b http://x" gives the text "a  " and the link: the word "b" is lost |
| Messages.CorrectedKeepsWordBeforeLink | src/state/message.rs:33-43 | with true positions, the same line gives the text "a  b" and the link |
| Messages.SortByPos | src/state/message.rs:54-57 | the tags ordered by position, as many as given |
| Messages.SortByPosPermutes | src/state/message.rs:57 | sorting keeps every tag and adds none |
| Messages.InsertByPosAdds | src/state/message.rs:57 | inserting a tag into a sorted list adds exactly that tag |
| Messages.EmoteSpansInOrder | src/state/message.rs:62-84 | the emote spans of the spans from tag `i` on are exactly those tags, in order, each with the text it covers |
| Messages.MessageEmotesInOrder | src/state/message.rs:54-84 | the emote spans of a built message are its tags in position order, one per tag, each naming the text it covers |
| Messages.EmoteTurn | src/state/message.rs:66-78 | one turn of the emote loop: the text before the tag when it starts past the cursor, then the emote |
| Messages.EmoteStep | src/state/message.rs:62-79 | one turn also records the emote's name for its id and moves the cursor to the tag's end |
| Messages.EmoteLoop | src/state/message.rs:54-84 | the spans are those of the whole text with its tags, and every tag's name is recorded in order |
| Messages.TrailingText | src/state/message.rs:81-84 | the text after the last emote, when there is any, completes the spans |
| Messages.FromPm | src/state/message.rs:19-95 | the message's id is the msg-id tag parsed as a UUID (none when absent or invalid), black is the default colour, sender, text, badges and options are copied, the spans are those of the text with `parse_text`'s positions corrected (Findings row 1), and every emote name is recorded; the fetcher is sent, once each and in order of first appearance, every tag id with no probed URL that it has not seen (`Emotes.Requests`); the probed URLs and the badge-list tags are kept |
| MainViews.Lookup | src/views/main_view.rs:410-422 | a word is recorded only when it is the name of a known emote, under that emote's id |
| MainViews.CollectAsWritten | src/views/main_view.rs:405-425 | the table the loop fills, as written, holds the hits of `ScanAsWritten` grouped by id |
| MainViews.Collect | src/views/main_view.rs:405-425 | with inclusive ends, the table holds the hits of `Scan` grouped by id |
| MainViews.ScanIsWordHits | src/views/main_view.rs:409-425 | the corrected scan records exactly the hits of the white-space separated words, in order |
| MainViews.ScanFindsWords | src/views/main_view.rs:409-425 | a hit is recorded exactly for each word naming an emote, from its first to its last index |
| MainViews.ScanHitsAreNames | src/views/main_view.rs:409-425 | every hit is a whole word in the text, bounded by white space or the ends, that names an emote with that id |
| MainViews.GroupIsRanges | src/views/main_view.rs:405-422 | the table's ids are the hits' ids, and each lists that id's ranges in scan order |
| MainViews.Note | src/views/main_view.rs:410-422 | a found id gets the range appended under it; nothing changes otherwise |
| MainViews.Render | src/views/main_view.rs:427-442 | none exactly when nothing matched; otherwise the entries "id:s-e,s-e", one per id in some order, joined by '/' |
| MainViews.EntryText | src/views/main_view.rs:431-438 | the id, a colon, and the ranges as "start-end" separated by commas |
| MainViews.BuildEmotesAsWritten | src/views/main_view.rs:404-443 | as written: none exactly when no word matched; otherwise the rendering of the grouped hits of `ScanAsWritten` |
| MainViews.BuildEmotes | src/views/main_view.rs:404-443 | corrected: none exactly when no word matched; otherwise the rendering of the grouped hits of `Scan` |
| MainViews.AsWrittenTakesInBlank | src/views/main_view.rs:420-421 | as written, "Kappa Kappa" records the first word as 0-5, a range taking in the blank; the corrected scan records 0-4 |
| MainViews.AsWrittenLosesLastWord | src/views/main_view.rs:409-414 | as written, "Kappa " records nothing: the blank last character is looked up with the word; the corrected scan records 0-4 (latent: the program trims the text before scanning it) |
| Resolver.AsOption | src/resolver/ready.rs:11-16 | the value exactly for a resolved entry, nothing for an outstanding one |
| Resolver.IntoOption | src/resolver/ready.rs:18-23 | agrees with `as_option` on every entry |
| Resolver.AsOptionMut | src/resolver/ready.rs:25-30 | a value exactly when the entry is ready, and it is the entry's value |
| Resolver.Fut.Spawn | src/resolver/fut.rs:24-34 | a spawned fetch starts with nothing delivered and records what its work can deliver |
| Resolver.Fut.Complete | src/resolver/fut.rs:28-32 | the background work delivers into the slot a result its fetch admits |
| Resolver.CompletedHas | src/resolver/resolver_map.rs:108-118 | every finished fetch's result is among those a poll hands over |
| Resolver.CompletedAdmitted | src/resolver/fut.rs:17-22 | every result polling hands over is one its fetch could deliver |
| Resolver.PollPartition | src/resolver/resolver_map.rs:108-118 | every pending fetch is either handed over or kept, never both |
| Resolver.UnfinishedAreUnfinished | src/resolver/resolver_map.rs:109-110 | the fetches kept are exactly unfinished ones taken from the pending list |
| Resolver.PollIdleIsNoop | src/resolver/resolver_map.rs:108-118 | with nothing finished, polling hands over nothing and keeps every fetch in place |
| Resolver.PollDrainsOnce | src/resolver/resolver_map.rs:108-118 | a second poll with nothing finishing in between hands over nothing: each result is handed over once |
| Resolver.PollAllFinished | src/resolver/resolver_map.rs:108-118 | when everything has finished, every result is handed over, in pending order |
| Resolver.SetEntry | src/resolver/resolver_entry.rs:12-26 | the key maps to its resolved value whatever it held before; every other key is unchanged |
| Resolver.GetMutEntry | src/resolver/resolver_entry.rs:28-34 | a value only for a resolved entry |
| Resolver.RemoveEntry | src/resolver/resolver_entry.rs:36-42 | the key is always removed, the rest is unchanged; the value is returned only when the entry was resolved |
| Resolver.ResolverEntry.Borrow | src/resolver/resolver_map.rs:76-80 | the writer works on the cache's own key map |
| Resolver.ResolverEntry.Set | src/resolver/resolver_entry.rs:12-26 | the cache's key map becomes `SetEntry` of the old one; pending fetches are untouched |
| Resolver.ResolverEntry.GetMut | src/resolver/resolver_entry.rs:28-34 | the value of a resolved key, as `GetMutEntry` |
| Resolver.ResolverEntry.Remove | src/resolver/resolver_entry.rs:36-42 | removes the key as `RemoveEntry`; pending fetches are untouched |
| Resolver.SetAllKeys | src/resolver/resolver_entry.rs:12-26 | setting a run of entries only adds the keys set |
| Resolver.SetAllUntouched | src/resolver/resolver_entry.rs:18-25 | a key no update names keeps its entry, resolved or not |
| Resolver.SetAllLastWins | src/resolver/resolver_entry.rs:18-25 | every updated key ends resolved to its last update |
| Resolver.SetAllAppend | src/resolver/resolver_entry.rs:12-26 | two runs of updates one after the other are their concatenation |
| Resolver.ResolverMap.constructor | src/resolver/resolver_map.rs:17-22 | no keys and no pending fetches |
| Resolver.ResolverMap.Contains | src/resolver/resolver_map.rs:24-30 | true for every key a fetch was started for, resolved or not |
| Resolver.ResolverMap.TryGet | src/resolver/resolver_map.rs:32-38 | a value only for a resolved key |
| Resolver.ResolverMap.GetOrUpdate | src/resolver/resolver_map.rs:40-54 | a present key spawns nothing and yields its value if resolved; an absent key becomes outstanding, exactly one fresh fetch is appended whose results are those the caller's fetch for that key can bring, and nothing is returned |
| Resolver.ResolverMap.GetOrElse | src/resolver/resolver_map.rs:56-70 | the side effect runs exactly on the first request for a key, which becomes outstanding; no fetch is added |
| Resolver.ResolverMap.Add | src/resolver/resolver_map.rs:72-74 | appends the fetch; the key map is unchanged |
| Resolver.ResolverMap.Update | src/resolver/resolver_map.rs:76-80 | a writer over this cache's key map |
| Resolver.ResolverMap.RemoveByKey | src/resolver/resolver_map.rs:82-88 | true exactly when the key was present; afterwards it is absent and nothing else changes |
| Resolver.ResolverMap.ReadyIter | src/resolver/resolver_map.rs:90-94 | exactly the resolved keys, each with its value |
| Resolver.ResolverMap.IsReady | src/resolver/resolver_map.rs:100-106 | true exactly for a resolved key |
| Resolver.ResolverMap.Poll | src/resolver/resolver_map.rs:108-118 | hands over the results of the finished fetches in pending order and keeps the unfinished ones in order; the key map is left to the caller's resolve step |
| Resolver.RequestTwice | src/resolver/resolver_map.rs:46-52 | two requests for the same key start at most one fetch |
| Images.ImageUpdatesKeys | src/runtime/image_cache.rs:27-37 | the URLs a poll writes are exactly those of the successful fetches |
| Images.FailedFetchStaysOutstanding | src/runtime/image_cache.rs:33-35 | a URL whose fetches all failed keeps its entry, so an outstanding URL stays outstanding and is not fetched again |
| Images.FetchedImageIsStored | src/runtime/image_cache.rs:29-32 | a successful fetch leaves its URL resolved |
| Images.RequestedImageIsStored | src/runtime/image_cache.rs:22-32 | a successful fetch started for a URL leaves that URL resolved at the next poll |
| Images.ImageCache.constructor | src/runtime/image_cache.rs:11-16 | an empty cache with nothing pending |
| Images.ImageCache.Set | src/runtime/image_cache.rs:18-20 | the URL is resolved to the image at once, whatever it held |
| Images.ImageCache.GetImage | src/runtime/image_cache.rs:22-25 | the image if it has arrived; the first request for a URL marks it outstanding and starts exactly one fetch, which can only bring back a result for that URL; later requests start none |
| Images.ImageCache.Poll | src/runtime/image_cache.rs:27-37 | the finished fetches are handed over once, each success stored under its URL in order, the unfinished kept |
| Users.LoginKey | src/runtime/user_map.rs:17 | one leading '#' is removed, nothing else |
| Users.ChannelNameSharesEntry | src/runtime/user_map.rs:17 | "#name" and "name" use the same cache key |
| Users.UserUpdatesKeys | src/runtime/user_map.rs:22-28 | the keys a poll writes are exactly the logins of the users found |
| Users.UnmatchedKeyUntouched | src/runtime/user_map.rs:24-25 | a key that no found user has as login keeps its entry: a lookup that found nothing leaves it outstanding |
| Users.FoundUserIsStored | src/runtime/user_map.rs:25 | a found user is stored, resolved, under its own login, not the key requested |
| Users.UserMap.constructor | src/runtime/user_map.rs:9-14 | an empty cache with nothing pending |
| Users.UserMap.Get | src/runtime/user_map.rs:16-20 | looks up the login without a leading '#'; the first request starts exactly one fetch, later ones none |
| Users.UserMap.Poll | src/runtime/user_map.rs:22-28 | each found user is set under its login, in order; unfinished lookups are kept |
| Games.BoxArtHasNoPlaceholders | src/runtime/game_map.rs:26-30 | no "{width}" or "{height}" is left in the box-art URL |
| Games.BoxArtIdentity | src/runtime/game_map.rs:26-30 | a URL without placeholders is unchanged |
| Games.Sized | src/runtime/game_map.rs:26-30 | only the box-art URL changes, and it holds no placeholder |
| Games.GameUpdatesKeys | src/runtime/game_map.rs:24-33 | the keys a poll writes are exactly the ids of the games found |
| Games.GameUpdatesAreSized | src/runtime/game_map.rs:24-33 | every game written is stored under its own id, with its box art filled in |
| Games.MissingGameStaysOutstanding | src/runtime/game_map.rs:25 | an id no lookup found keeps its entry |
| Games.GameMap.constructor | src/runtime/game_map.rs:9-14 | an empty cache with nothing pending |
| Games.GameMap.Get | src/runtime/game_map.rs:16-19 | the first request for a game id starts exactly one fetch, later ones none |
| Games.GameMap.Poll | src/runtime/game_map.rs:21-35 | each found game is set under its id with "{width}" replaced by "144" and "{height}" by "152"; unfinished lookups are kept |
| EmoteFetching.ProbeUrlsDifferOnlyInFormat | src/runtime/emote_fetcher.rs:24-41 | the animated and static URLs share the CDN address, theme "dark" and scale "1.0", and differ only, and always, in the format segment |
| EmoteFetching.EmoteFetcher.Create | src/runtime/emote_fetcher.rs:15-79 | nothing seen and both queues empty |
| EmoteFetching.EmoteFetcher.Lookup | src/runtime/emote_fetcher.rs:85-92 | the id is seen afterwards; it is sent to the worker only when it was not seen before, so at most once over the fetcher's life |
| EmoteFetching.EmoteFetcher.Poll | src/runtime/emote_fetcher.rs:81-83 | the oldest (id, url) the worker delivered, removed from the queue; nothing when it is empty |
| EmoteFetching.ServeOne | src/runtime/emote_fetcher.rs:59-70 | the worker takes one id, probes the animated URL and the static one only if that fails, and delivers the first URL that answers, or nothing |
| Emotes.FindOption | src/runtime/emote_map.rs:120-122 | the wanted option exactly when it is listed |
| Emotes.Filter | src/runtime/emote_map.rs:110-124 | the wanted option if listed; otherwise the default, or the last option when there is no default |
| Emotes.EmoteUrlSegments | src/runtime/emote_map.rs:126-134 | the emote URL is the CDN address with the id, "animated" if offered else "static", "dark" if offered else "light", and "1.0" if offered else the last scale |
| Emotes.PreferredUrlIsFetcherUrl | src/runtime/emote_map.rs:126-134 | a set offering animated, dark and 1.0 gets the same URL the fetcher probes first |
| Emotes.EverySetStored | src/runtime/emote_map.rs:140-146 | every emote set of every finished list is resolved afterwards |
| Emotes.EveryNameStored | src/runtime/emote_map.rs:144 | every emote set's name is mapped afterwards |
| Emotes.EveryBadgeVersionStored | src/runtime/emote_map.rs:148-157 | every version of every badge set is resolved afterwards under its hash |
| Emotes.EmoteMap.Create | src/runtime/emote_map.rs:20-37 | empty maps, a fresh fetcher, and one pending fetch each for the global badges and the global emotes; the only badge tag requested is the global one |
| Emotes.EmoteMap.PopulateGlobalBadges | src/runtime/emote_map.rs:39-42 | exactly one badge fetch is added, which can deliver only a list tagged `None`; the entries are unchanged |
| Emotes.EmoteMap.PopulateChannelBadges | src/runtime/emote_map.rs:44-49 | exactly one badge fetch is added, which can deliver only a list tagged `Some(id)`; the entries are unchanged |
| Emotes.EmoteMap.PopulateGlobalEmotes | src/runtime/emote_map.rs:51-53 | exactly one emote-set fetch is added; the entries are unchanged |
| Emotes.EmoteMap.PopulateChannelEmotes | src/runtime/emote_map.rs:55-57 | exactly one emote-set fetch is added; the entries are unchanged |
| Emotes.EmoteMap.PopulateEmoteSet | src/runtime/emote_map.rs:59-61 | exactly one emote-set fetch is added; the entries are unchanged |
| Emotes.EmoteMap.GetBadgeUrl | src/runtime/emote_map.rs:63-66 | the URL resolved under the global key ("-", set, version), if any |
| Emotes.EmoteMap.GetChannelBadgeUrl | src/runtime/emote_map.rs:68-77 | the channel's own badge URL when resolved; otherwise the global one |
| Emotes.EmoteMap.InsertEmote | src/runtime/emote_map.rs:79-84 | the name always maps to the id afterwards; the fetcher is asked only for an id with no URL yet, and sends it only if it has not seen it; the badge-list tags are kept |
| Emotes.RequestsAreNewIds | src/runtime/emote_map.rs:79-84 | what a run of `insert_emote` calls sends the fetcher is exactly the run's ids that have no probed URL and were not seen before the run, each once, in the order they first appear in the run |
| Emotes.RequestsAppend | src/runtime/emote_map.rs:79-84 | two runs of `insert_emote` calls, one after the other, send what the joined run sends and leave the same seen set |
| Emotes.EmoteMap.GetEmoteId | src/runtime/emote_map.rs:86-88 | the id recorded for the name, if any |
| Emotes.EmoteMap.GetEmoteUrl | src/runtime/emote_map.rs:90-95 | the emote-set URL when resolved, else the fetched URL, else nothing |
| Emotes.EmoteMap.Poll | src/runtime/emote_map.rs:109-158 | every URL the fetcher delivered is stored; every finished emote-set list sets id to URL and name to id for each set; every finished badge list carries a tag some request was made with and sets each version's URL under the hash of that tag's channel (or "-"), set and version; unfinished fetches are kept |
| Emotes.EmoteMap.DrainFetcher | src/runtime/emote_map.rs:136-138 | the fetcher's queue is emptied into the id-to-URL map, in order |
| Emotes.EmoteMap.PollEmoteSets | src/runtime/emote_map.rs:140-146 | the finished emote-set lists are applied in order and handed over once |
| Emotes.EmoteMap.SetEmoteList | src/runtime/emote_map.rs:141-145 | one list sets each set's URL under its id and its name to its id, in list order |
| Emotes.EmoteMap.PollBadges | src/runtime/emote_map.rs:148-157 | the finished badge lists are applied in order and handed over once |
| Emotes.EmoteMap.SetBadgeList | src/runtime/emote_map.rs:150-156 | one list sets every version's 1x URL under its hash, in order |
| StreamChecks.ActionFor | src/runtime/stream_check.rs:157-163 | the event names the reported id and is `Added` exactly when a stream came back |
| StreamChecks.EventsAppend | src/runtime/stream_check.rs:56-62 | the events of two runs of reports are the events of each run, in order |
| StreamChecks.LastReportWins | src/runtime/stream_check.rs:165 | after a run of reports, an id that was reported is resolved to its last report |
| StreamChecks.StreamCheck.Create | src/runtime/stream_check.rs:40-54 | a new check knows no stream and has sent, received and raised nothing |
| StreamChecks.StreamCheck.GetOrSubscribe | src/runtime/stream_check.rs:71-78 | a known live stream is returned; an unknown id is marked outstanding and exactly one subscription is sent; a known id sends nothing |
| StreamChecks.StreamCheck.Unsubscribe | src/runtime/stream_check.rs:80-82 | exactly one removal is sent for the id |
| StreamChecks.StreamCheck.Poll | src/runtime/stream_check.rs:56-65 | every waiting report and then every finished request is stored, each raising its event in that order; the update channel is drained and only unfinished requests remain |
| StreamChecks.StreamCheck.PollComposes | src/runtime/stream_check.rs:56-62 | storing the waiting reports and then the finished ones is storing both runs, and raises both runs' events in order |
| StreamChecks.StreamCheck.PollFinished | src/runtime/stream_check.rs:61-62 | the finished requests are stored in order with their events, and the unfinished remain pending |
| StreamChecks.StreamCheck.DrainUpdates | src/runtime/stream_check.rs:57-59 | every waiting report is stored and raises its event, and the update channel is left empty |
| StreamChecks.StreamCheck.ApplyAll | src/runtime/stream_check.rs:57-59 | storing a run of reports one by one stores the whole run and raises its events in order |
| StreamChecks.StreamCheck.Update | src/runtime/stream_check.rs:151-167 | the entry for the id is set to the reported stream and exactly that report's event is raised |
| StreamChecks.StreamCheck.PollEvent | src/runtime/stream_check.rs:67-69 | the oldest raised event is taken when there is one, nothing otherwise |
| StreamChecks.SubscribeUnsubscribeSubscribe | src/runtime/stream_check.rs:71-82 | subscribing to a new id, unsubscribing and subscribing again sends one addition and one removal: the second lookup finds the outstanding entry |
| StreamChecks.NoneForSnoc | src/runtime/stream_check.rs:104-108 | reporting one more leftover id appends one "not live" report |
| StreamChecks.PresentSnoc | src/runtime/stream_check.rs:97-102 | taking one more stream adds its user id to those reported and appends its live report |
| StreamChecks.ReportsCoverQuery | src/runtime/stream_check.rs:95-108 | after a batch every queried id has a report, and exactly the reports after the live ones are "not live", each for a queried id Helix did not return |
| StreamChecks.StreamBatcher.Spawn | src/runtime/stream_check.rs:90-91 | the batcher starts with an empty watched set and queue |
| StreamChecks.StreamBatcher.BatchSend | src/runtime/stream_check.rs:93-110 | something is sent exactly when the fetch task delivered a reply (`None` only when that task died; a failed Helix request arrives as an empty list); then the live streams are reported and then every queried id not among them as not live |
| StreamChecks.EmptyReplyReportsAllOffline | src/runtime/stream_check.rs:93-108 | when the reply is an empty list (Helix failed), every queried id is reported not live, once each, and nothing is reported live |
| StreamChecks.StreamBatcher.SendPresent | src/runtime/stream_check.rs:95-102 | every returned stream is reported live, in order, and the ids left are the queried ones no stream came back for |
| StreamChecks.StreamBatcher.SendAbsent | src/runtime/stream_check.rs:104-108 | every leftover id is reported not live exactly once |
| StreamChecks.StreamBatcher.Step | src/runtime/stream_check.rs:112-148 | a timer wake batches the whole watched set (a wake the loop as written never gets: see Findings); an addition of a new id watches and queues it, a repeat does nothing more, a removal unwatches; the quiet spell batches the queue and clears it only when the fetch task delivered a reply; a hangup stops; every watched id stays reported or queued |
| StreamChecks.AsWrittenSleepNeverWins | src/runtime/stream_check.rs:112-116 | as written, the 30 s sleep made afresh each turn never finishes first: every turn lasts at most 1 s and ends with the sleep still at least 29 s from running out, so no tie arises whatever the select's bias |
| StreamChecks.KeptSleepStep | src/runtime/stream_check.rs:37-38 | in the corrected loop (sleep kept across turns, `biased;` select with the sleep first): a turn the sleep wins lasts exactly the time left on it, and any other turn ends strictly before it runs out |
| StreamChecks.StreamBatcher.Turn | src/runtime/stream_check.rs:112-148 | corrected schedule, with the sleep kept across turns and listed first in a `biased;` select: the first arm to finish picks the wake (the sleep on a tie, the receive for an arrival at the end of the 1 s window), and the whole watched set is asked about again less than 30 s after the last time |
| Helix.FlattenResultVec | src/helix.rs:160-162 | the decoded list on success, the empty list on any error |
| Helix.ResultVecSingle | src/helix.rs:164-166 | an item exactly when the request succeeded with a non-empty list, and it is the LAST item (`pop`) |
| Helix.GetUserResult | src/helix.rs:123-135 | a user exactly when the request succeeded with a non-empty list; it is the FIRST item, paired with the login asked for |
| Helix.GetUserFromIdResult | src/helix.rs:113-121 | a user exactly when the request succeeded with a non-empty list, and it is the first item |
| Helix.SingleShapingsAgree | src/helix.rs:113-166 | on a one-item answer, taking the last item and taking the first give the same user |
| Helix.Chunks | src/helix.rs:180 | every piece is non-empty and at most 100 long, and every piece but the last is exactly that long |
| Helix.ChunksCover | src/helix.rs:180 | the pieces, put back together in order, are the query |
| Helix.GetManyInner | src/helix.rs:168-200 | the output is every piece's items, the pieces taken in the order their requests completed |
| Helix.GetManyInnerKeepsEverything | src/helix.rs:191-196 | whatever the completion order, the output holds exactly the items of all pieces: a permutation of the in-order result |
| Helix.MergedAppend | src/helix.rs:192-194 | merging two runs of completions is merging each, one after the other |
| Helix.MergedPrefix | src/helix.rs:192-194 | completions naming only the first pieces see only those pieces |
| Helix.MergedIsPermutation | src/helix.rs:192-194 | merging in any order that names each piece once is a permutation of the in-order concatenation |
| Helix.WithoutLast | src/helix.rs:192-194 | a completion order of n pieces without the last piece's completion is a completion order of n - 1 pieces |
| Helix.MergedSplit | src/helix.rs:192-194 | taking one completion out of the order takes exactly that piece's items out of the output |
| Helix.FlattenSnoc | src/helix.rs:193 | concatenating the pieces is concatenating all but the last and then the last |
| Helix.TokenCache.constructor | src/helix.rs:58-62 | a new client has no bearer token |
| Helix.FirstAnswer | src/helix.rs:230-246 | the first attempt not refused with 401, every earlier one having been refused |
| Helix.Outcome | src/helix.rs:239-255 | success exactly when a non-401 answer came with a body that decodes, carrying that body's list |
| Helix.GetResponse | src/helix.rs:221-256 | the request is tried again after each 401 and stops at the first other answer, whose outcome is returned; a cached token is reused on the first try and every 401 discards it, so a fresh token is held after any retry |
| Irc.ChannelKey | src/twitch/identity.rs:22 | one leading '#' is removed when present, and a name without one is kept as it is |
| Irc.HashedAndPlainAgree | src/twitch/identity.rs:41-44 | "#c" and "c" look up the same badge map |
| Irc.BadgesFor | src/twitch/identity.rs:41-48 | the badges filed under the channel's key, none for a channel never seen |
| Irc.AppendBadges | src/twitch/identity.rs:16-39 | each (set id, version) pair is inserted in order into the channel's map, created empty when unseen, a later pair overwriting an earlier one |
| Irc.BadgesRoundTrip | src/twitch/identity.rs:16-48 | afterwards the channel's badges are its old set ids plus the new ones; every new set id holds the last version given for it, and every other old set id keeps its version |
| Irc.BadgesOfOtherChannels | src/twitch/identity.rs:25 | the badges of every other channel, and every other field of the identity, are unchanged |
| Irc.Writer.constructor | src/twitch/client.rs:35 | the writer queues onto the given command channel |
| Irc.Writer.Privmsg | src/twitch/writer.rs:15-20 | exactly one `Privmsg` with this target and text is queued |
| Irc.Writer.Join | src/twitch/writer.rs:22-26 | exactly one `Join` for this channel is queued |
| Irc.Writer.Part | src/twitch/writer.rs:28-32 | exactly one `Part` for this channel is queued |
| IrcClient.Stamped | src/twitch/client.rs:93-103 | the echo keeps its channel, sender, text and tags, and gains exactly one more tag, ("id", the server's message id), at the end |
| IrcClient.Client.Create | src/twitch/client.rs:19-40 | a new client is not connected and its start signal is unused |
| IrcClient.Client.Connect | src/twitch/client.rs:46-50 | `Start` goes down the start line the first time, and nothing more ever after, however often it is called |
| IrcClient.Client.Poll | src/twitch/client.rs:60-123 | no event: nothing changes; `Connecting`/`Connected`/`Reconnecting` set the status, `Connected` replacing the identity; a USERSTATE merges its badges into the identity, empties the echo slot and returns the echo stamped with the message id when one waited; joins, chat lines and credential rejections pass through without touching the status |
| IrcLoop.QueuedLastWins | src/twitch/mod.rs:86-92 | after the queued commands are applied, a channel is to be joined exactly when the last Join or Part naming it was a Join |
| IrcLoop.QueuedUntouched | src/twitch/mod.rs:86-92 | a channel no queued Join or Part names keeps its membership |
| IrcLoop.JoinCommandsSnoc | src/twitch/mod.rs:264-271 | one more channel appends one more JOIN |
| IrcLoop.SelfIdentity | src/twitch/mod.rs:241-260 | the announced identity carries our name and files our global badges under that name alone |
| IrcLoop.Session.constructor | src/twitch/mod.rs:63-65 | the connection task starts waiting for the signal, with no channels, no name and nothing written |
| IrcLoop.Session.Begin | src/twitch/mod.rs:67-71 | `Start` moves to the first connection attempt; `Ignore` ends the connection task with nothing written |
| IrcLoop.Session.Reconnect | src/twitch/mod.rs:75-84 | exactly one `Reconnecting` of 5 seconds is reported and the loop returns to its top |
| IrcLoop.Session.Attempt | src/twitch/mod.rs:86-113 | the queue is drained into the channel set, `Connecting` is reported, and a connection that opens and takes the registration is online having written only the registration; otherwise a reconnect is reported |
| IrcLoop.Session.DrainOffline | src/twitch/mod.rs:86-92 | the queue is emptied and the channel set is the queued Joins and Parts applied in order; a queued chat line is dropped unsent |
| IrcLoop.Session.HandleWrite | src/twitch/mod.rs:144-173 | the command is taken off the queue and Join/Part update the channel set first; the command is written when the write succeeds, and otherwise a reconnect is reported |
| IrcLoop.Session.WriterClosed | src/twitch/mod.rs:277-279 | the UI hanging up ends the connection task with nothing more written |
| IrcLoop.Session.ReadFailed | src/twitch/mod.rs:281-283 | a failed read reports a reconnect and leaves the channel set as it was |
| IrcLoop.Session.Idle | src/twitch/mod.rs:127-142 | when the tracker says the server went quiet, or the ping cannot be written, a reconnect is reported; otherwise one PING carrying the elapsed seconds is written |
| IrcLoop.Session.HandleLine | src/twitch/mod.rs:175-275 | an unparsable line or a failed PONG reconnects; otherwise a chat line is passed on, READY records our name, our own JOIN (only ours) is reported, ROOMSTATE reports the room id, USERSTATE is passed on, and GLOBALUSERSTATE announces our identity and then writes one JOIN per channel in the set, in the set's order; when the k-th JOIN cannot be written, exactly the JOINs before it are on the wire and the session reconnects |
| IrcLoop.Session.Rejoin | src/twitch/mod.rs:264-271 | the channels of the set are tried each once, in some order; all JOINs are written when none fails, and when the k-th write fails exactly the k-1 before it are written and the rest of the set is not tried |
| Inputs.Parse | src/input.rs:21-51 | a line is sent as it is exactly when it does not start with '/'; an unknown command keeps the whole line |
| Inputs.ParseHead | src/input.rs:26-47 | a line "/head rest" whose head holds no space is dispatched on that head with the rest as its argument |
| Inputs.ParseShape | src/input.rs:21-51 | every join or part result names the non-empty text after "/word ", for a word of that command; a usage result comes only from "/word " with nothing after it, for join or for part |
| Inputs.DispatchShape | src/input.rs:27-47 | dispatching the head and rest of "/head rest" gives a result of that line's shape |
| Inputs.ParseJoinWord | src/input.rs:28-36 | "/join c" and "/enter c" join `c`, or give the join usage when `c` is empty |
| Inputs.PartWordsAreNotJoinWords | src/input.rs:28-37 | the part command's words are not join words, so the join arm never catches them |
| Inputs.ParsePartWord | src/input.rs:37-45 | "/part c" and "/leave c" part `c`, or give the part usage when `c` is empty |
| Inputs.ParseCommand | src/input.rs:21-51 | the command line of a join, a part (non-empty channel) or a message (not starting with '/') parses back to it |
| Inputs.ParseBareCommand | src/input.rs:26-50 | a '/' word with no space after it is unknown, even "/join" |
| Mpsc.Mailbox.constructor | src/twitch/client.rs:20-21 | a new channel holds nothing |
| Mpsc.Mailbox.Send | src/twitch/writer.rs:16-19 | the item is queued after every item already waiting |
| Mpsc.Mailbox.TryRecv | src/twitch/events.rs:21-23 | the oldest waiting item is taken when there is one, nothing otherwise |
| Text.AsciiWhitespaceIsWhitespace | src/state/message.rs:29-30 | every ASCII blank is Unicode white space, so trimming first never leaves a blank that the split would see at an end |
| Text.StripPrefix | src/state/channel.rs:17 | exactly one leading `c` is dropped when there is one, and the string is kept otherwise |
| Text.StripPrefixOfPrefixed | src/state/channel.rs:17 | removing a leading `c` from `c` followed by `s` gives back `s`, even when `s` itself starts with `c` |
| Text.TrimStart | src/app/mod.rs:208 | a suffix of the input that drops only white space and starts with none |
| Text.TrimEnd | src/app/mod.rs:208 | a prefix of the input that drops only white space and ends with none |
| Text.Trim | src/app/mod.rs:208 | the infix of the input left when white space, and only white space, is dropped at both ends: everything around it is white space, and it neither starts nor ends with white space |
| Text.TrimEmptyIff | src/app/mod.rs:208-211 | the trimmed input is empty exactly when every character is white space |
| Text.TrimIdentity | src/app/mod.rs:208 | a string with no white space at either end trims to itself |
| Text.ReplaceIdentity | src/runtime/game_map.rs:29-30 | with no occurrence of the pattern, replacing changes nothing |
| Text.ReplaceKeepsAbsent | src/runtime/game_map.rs:29-30 | replacing cannot create an occurrence of a text that shares no character with the replacement |
| Text.ReplaceRemovesAll | src/runtime/game_map.rs:29-30 | after replacing, the pattern no longer occurs when the replacement shares no character with it |
| Text.SplitOnce | src/input.rs:26 | none exactly when the separator is absent; otherwise the text before and after its first occurrence |
| Text.SplitOnceAtFirst | src/input.rs:26 | splitting `a` + separator + `b`, with no separator in `a`, gives `a` and `b` |
| Text.NatToString | src/twitch/mod.rs:137 | the decimal digits of `n`: non-empty, digits only, denoting exactly `n`, with no leading zero |
| Text.WordEnd | src/state/message.rs:30 | the end of the run of non-blanks starting at `i`: no blank before it, and a blank or the end of the string at it |
| Text.WordsFrom | src/state/message.rs:30 | word ranges in order with gaps between them, each starting at a non-blank |
| Text.WordsFromTokenized | src/state/message.rs:30 | the ranges are exactly the maximal runs of non-blanks, as `split_ascii_whitespace` yields them |
| Text.WordsHaveNoBlanks | src/state/message.rs:30 | no range holds an ASCII blank |
| Text.WordsLeaveOnlyBlanks | src/state/message.rs:30 | every character outside the ranges is an ASCII blank |
| Text.WordEndAt | src/state/message.rs:30 | a run of non-blanks ended by a blank or the end of the string ends where `WordEnd` says |
| Text.SkipBlank | src/state/message.rs:30 | a blank starts no word |
| Text.WordAt | src/state/message.rs:30 | a run of non-blanks from `start`, ended at `i` by a blank or the end, is the first word, and the words from `i` follow |
| Text.LastWordFrom | src/state/message.rs:30 | a run of non-blanks to the end of the string is the only word left |
| Maps.InsertAllKeys | src/twitch/identity.rs:26-38 | inserting a run of pairs adds exactly their keys to the map's keys |
| Maps.InsertAllUntouched | src/twitch/identity.rs:26-38 | a key no pair names keeps its old value |
| Maps.InsertAllAppend | src/twitch/identity.rs:26-38 | inserting two runs is inserting the first and then the second |
| Maps.InsertAllLastWins | src/twitch/identity.rs:30-36 | a key some pair names ends up with the value of the last such pair |
| Messages.InsertByPos | src/state/message.rs:57 | one tag longer than the sorted list it goes into, and still sorted by position |

## Left out

- I/O, timers, repaint requests and the network are not modelled. An HTTP, OAuth or socket
  result, an elapsed time or a ping-tracker verdict is a parameter chosen by the caller.
  Each spawned task is a slot or queue that the environment fills.
- The following foreign parsers are parameters: `url::Url::parse` with its http/https
  scheme check (an `iset<string>` of link words), `Uuid::parse_str` (a function), and
  `twitch_message::parse` (a `Frame`, or none when the line does not parse). The wire
  encoding of IRC commands is not modelled; a written command is a `Command` value.
- JSON decoding with serde and the TOML settings file are not modelled. Settings are
  values, and a body that does not decode is `Answered(None)`.
- Strings are sequences of characters, and byte offsets are taken as character indices.
  This matches the source only for ASCII text, which is what Twitch's emote positions and
  the emote-tag builder count in.
- `char::is_whitespace` is modelled by its list of code points. There is no Unicode
  normalisation.
- Hash-map iteration order is not modelled. Where the source iterates a `HashMap` or
  `HashSet` (the emote table of `build_emotes`, the rejoin loop, the leftover ids of a stream
  batch), the model proves the result for some order: each element once, and nothing else.
- `sort_unstable_by_key` is modelled as an insertion sort by position. Only what the source
  relies on is proved: the result is sorted and is a permutation of the input. The relative
  order of two tags at the same position is not pinned.
- The badge hash is a function of the model that is not assumed injective. The proofs
  about badge URLs hold for any hash.
- Egui rendering, widgets, fonts, image decoding and every view except the main view's
  `build_emotes` are not modelled. Of `ReadyApp`, only `handle_message` and the view switch
  of `update` are modelled. `create`, `fetch_initial_emotes` and the per-frame polling
  order are not part of this model.
- The database is modelled as a history list of inserted lines (`HistoryStore`). Its
  columns, timestamps, SQL and `retain` are not modelled. The state file's reading and
  writing is a parameter: the file's contents, or none when it cannot be read or does not decode.
- The Helix client's headers, the client id and secret, and the OAuth request itself are
  not modelled. A freshly issued token is the parameter `issued`.
- A channel send that fails because the other end is gone is not modelled. The source
  ignores the failure in the `Writer`, `StreamCheck` and `Client`. In `run`, a failed event
  send ends the connection task, except in `reconnect!`, whose plain `break` leaves only
  the innermost loop around it (the rejoin `for`, for one). In the stream batcher, a failed
  report send leaves only the `for` of that half of the batch, so the rest of its reports
  are cut; the batcher goes on and stops only when its receive yields `None`. A `Mailbox`
  never closes in this model, so those `break`s are not modelled.
- Helix.GetResponse: requires that some attempt is answered with something other than
  401. The source retries for as long as 401s come back, so a server that refuses forever
  is not modelled.
- ReadyApps.ReadyApp.HandleMessage: requires that a received or echoed line names a joined
  channel and that `pm` is that line seen through its tags. The source panics on an
  unknown channel. For a received line it also carries the tag precondition of
  `Messages.FromPm`, and its text spans are the corrected ones, as there.
- Messages.FromPm: requires the emote tags, sorted by start, to lie inside the text in order
  and without overlap (`Placeable`). The source panics when it slices the text for other
  tags (`src/state/message.rs:67-75`); those panics are not modelled. The text spans
  come from `parse_text` with its positions corrected (Findings row 1), not from the
  code as written.
- Channels.Build: the same tag precondition and corrected text spans as `Messages.FromPm`.
- Channels.PopulateMessages: the same tag precondition and corrected text spans as
  `Messages.FromPm`, for every stored line. The stored lines arrive already parsed: the
  source parses each stored row again and unwraps the result (`src/queue.rs:40`), which
  panics on a row that does not parse; the rows the program stored itself always parse,
  so the model assumes they do.
- ReadyApps.ReadyApp.Receive: the same tag precondition and corrected text spans as
  `Messages.FromPm`, for the received line.
- Emotes.Filter: requires a default or a non-empty option list. With neither, the source
  panics in `.last().unwrap()` (`src/runtime/emote_map.rs:117`); that panic is not
  modelled.
- Emotes.EmoteMap.Poll: requires every set of every finished emote-set list to offer at
  least one scale. This excludes the same panic, reached through `make_emote_url`. Its
  other requirement, `BadgesTagged`, is an invariant of the model: `Create` establishes it
  and every badge request keeps it.
- IrcClient.Client.Poll: requires an identity, and a message id when an echo is waiting,
  for a USERSTATE event. The source panics on either absence (`expect`).
- IrcLoop.Session.HandleLine: requires a room id on ROOMSTATE, and a learned name and a user
  id on GLOBALUSERSTATE. The source panics on either absence (`expect`).
- Queues.Queue.WithCapacity: requires a non-zero capacity, as the source asserts.
- IrcClient.Status: the instant at which a reconnect was scheduled is a clock reading and
  is not modelled. Only the waiting time is kept.
- Irc.Identity: the colour is not modelled. No modelled operation reads it.
- `events.rs` declares no `InvalidCredentials` event, but `client.rs` matches on one. The
  model follows `client.rs` and includes it.
- Mpsc.Mailbox.Send: a send to a dropped receiver fails in the program (what each caller then does is described above). The model has no closed state, so every send succeeds.

## Findings

| source | as written | input that shows it | evidently intended | confidence | as-written member | corrected member |
|---|---|---|---|---|---|---|
| src/state/message.rs:33-43 | `pos` advances by `el.len() + 1` per word, so it assumes exactly one blank between words. The text span cut before a link ends early when the blanks are wider. | "a  b http://x", where "http://x" is a link: the spans are `Text("a  ")` and `Url("http://x")`. | The text before the link is kept whole: `Text("a  b")` and `Url("http://x")`. | high; not executed | Messages.AsWrittenDropsWordBeforeLink | Messages.CorrectedKeepsWordBeforeLink |
| src/views/main_view.rs:420-421 | A word followed by a blank is recorded as (start, index of the blank). Twitch emote ranges end at the word's last character, as the final word's range does. | "Kappa Kappa", with Kappa a known emote: the first range is 0-5, which takes in the blank. | 0-4, the last index of the word. | high; not executed | MainViews.AsWrittenTakesInBlank | MainViews.ScanFindsWords |
| src/views/main_view.rs:409-414 | The end-of-text case keeps the last character in the word even when that character is a blank. | "Kappa ": "Kappa " is looked up, so nothing is recorded. Latent for every caller in the program: the text is trimmed before it is scanned (src/views/main_view.rs:169, src/views.rs:209), so it never ends in a blank. | Kappa recorded at 0-4. | high that the scan is wrong on such text; latent for the program as it stands; not executed | MainViews.AsWrittenLosesLastWord | MainViews.ScanFindsWords |
| src/runtime/stream_check.rs:112-122 | Every turn of the loop makes a new 30 s sleep next to a new 1 s receive timeout, and the sleep is dropped when the turn ends. The receive or its timeout always finishes first, so the arm that asks about the whole watched set never runs. | Any run: with no subscription change arriving, every turn ends on the 1 s timeout. A stream checked live once is never asked about again, so it is never reported offline. | The 30 s sleep lives across turns and is renewed when it fires, and the select is `biased;` with the sleep first, so the whole set is asked about within 30 s of the last time even when the sleep and the receive finish together. | high; not executed | StreamChecks.AsWrittenSleepNeverWins | StreamChecks.StreamBatcher.Turn |
