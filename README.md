# abar status-bar engine, modelled in Dafny

abar builds a one-line status bar from blocks. Each block shows the clamped
output of a user function. A per-block `TimedCache` decides when that
function runs again. The cache runs the function inline, or, once a thread
pool is attached, sends it to the pool as a job and polls for the result.
The bar joins the blocks' texts with a delimiter between a left and a right
buffer. A small text protocol on a TCP port tells the running bar to
refresh, to shut down, or to update named blocks.

The repository holds two revisions of the block and the bar. Each revision
is its own module here:

- `Cache` (`cache.dfy`): the `TimedCache` class, with the functions
  `Due`, `Deadline`, `UpdatedNow` and `Updated` on a `Snapshot` of its
  state. The methods are proved to move the state exactly as those
  functions say, and the refresh policy is proved as lemmas about them.
- `Block` (`statusblock.dfy`): the current `StatusBlock` over a TimedCache
  of strings, including the in-place clamp of `truncate_cache` and
  `Display`.
- `LegacyBlock` (`legacy_statusblock.dfy`): the earlier `StatusBlock`,
  which refreshes inline and clamps once.
- `Bar` (`statusbar.dfy`) and `LegacyBar` (`legacy_statusbar.dfy`): the
  two bar renders.
- `BlockBuilder` and `BarBuilder` (`statusblock_builder.dfy`,
  `statusbar_builder.dfy`): the by-value builders and their conversions.
- `Monitor` (`monitor.dfy`): the `Command` enum and the message parse of
  `Monitor::run`.
- `Cli` (`cli.dfy`): the message the client sends.
- `RoundTrip` (`roundtrip.dfy`): client and listener agree.
- Shared helpers: `Text` (clamp, join, split), `Clock` (saturating
  `duration_since`) and `Wrappers` (`Option`).

Environment inputs are parameters:

- The clock is a `now: nat`.
- The user function `fn() -> T` is a `nat -> T`, read at the instant it
  runs.
- What one cache call sees of the pool is a `Tick`: the instant, whether
  the job send succeeds, and what the non-blocking receive returns.
- The three channel handles are always set or cleared together. The
  `Snapshot` keeps them as one flag, `pooled`; the class keeps three
  booleans, and `Valid()` says they are equal.

Behaviour of the code that a reader may not expect:

- The clamp pads on the right (`push_str`), not on the left.
- `Update` carries the names as a list, in message order, duplicates and
  empty names included. It is not a set.
- The message is split on every single space, not on runs of whitespace.
  A command word followed by a newline is therefore not recognised.
- In `src/statusbar/mod.rs`, when block 0 is hidden, the first block shown
  after it is still preceded by a delimiter (`Bar.HiddenFirstBlockLeavesDelimiter`).
- `update_now` on a pooled cache that is already waiting sends another job.
  Nothing limits a cache to one job in flight.
- `StatusBarBuilder::new` shows empty blocks (derived default `false`).
  `StatusBar::default` hides them.
- A failed send drops the pool but does not evaluate in the same call. The
  next refresh then evaluates inline (`Cache.FailedSendFallsBackToInline`).
- A failed send while a job is outstanding drops the channels but leaves
  `waiting` set. Only a received result clears it, and that needs the result
  channel, so from then on `next_update` is `None` although `update` still
  refreshes inline whenever it is due (`Cache.FailedSendWhileWaitingSticks`,
  `Cache.StuckWaiting`, `Cache.StuckStillRefreshes`).

## Model

| member | source | states |
|---|---|---|
| Cache.Initial | src/statusblock/cache.rs:23-52 | every constructor starts never refreshed, without a pool and not waiting, with the given value and interval |
| Cache.Due | src/statusblock/cache.rs:90-103 | due exactly when never refreshed, or when an interval is set and `now` is strictly more than `last + interval` |
| Cache.Deadline | src/statusblock/cache.rs:54-66 | `None` exactly when waiting, or when refreshed without an interval; `now` when never refreshed; `last + interval` when both are set |
| Cache.UpdatedNow | src/statusblock/cache.rs:106-135 | without a pool: value := output, last := now, nothing else changes; with a pool: value and last stay, the pool stays iff the send succeeds, waiting is set iff it succeeds; the interval never changes |
| Cache.Updated | src/statusblock/cache.rs:78-104 | the interval never changes and `update` never attaches a pool |
| Cache.FirstUpdateEvaluates | src/statusblock/cache.rs:23-34 | a new cache's deadline is `now`, and its first `update` evaluates inline: value := output, last := now, no pool, not waiting |
| Cache.DeadlineBoundsStaleness | src/statusblock/cache.rs:54-66 | for a cache that is not waiting: due exactly when `t` is strictly after the deadline; never due when there is no deadline; always due when never refreshed |
| Cache.StrictStaleness | src/statusblock/cache.rs:90-100 | once refreshed and not waiting on the pool: no change while `now <= last + interval`, `update_now` once `now > last + interval`, no change ever without an interval |
| Cache.StableWithoutInterval | src/statusblock/cache.rs:95-96 | once refreshed without an interval, any number of `update`/`get` calls leaves the whole state unchanged |
| Cache.PollingNeverDispatches | src/statusblock/cache.rs:79-88 | while pooled and waiting, `update` ignores the function's output and the send outcome; with no result it changes nothing; with a result it stores it, stamps `now` and ends the wait |
| Cache.Run | src/statusblock/cache.rs:68-71 | repeated `get`s keep the interval and never attach a pool; with no call the state is unchanged |
| Cache.FailedSendWhileWaitingSticks | src/statusblock/cache.rs:125-129 | a failed send while waiting leaves `waiting` set without channels, so `next_update` is `None` |
| Cache.StuckWaiting | src/statusblock/cache.rs:78-88 | waiting without channels persists through any run of `update`s, and `next_update` stays `None` |
| Cache.StuckStillRefreshes | src/statusblock/cache.rs:90-111 | in that state a due `update` still evaluates inline and stamps the instant |
| Cache.FailedSendFallsBackToInline | src/statusblock/cache.rs:121-129 | a failed send drops the pool and keeps value, last and waiting; the next `update_now` then evaluates inline |
| Cache.TimedCache.New | src/statusblock/cache.rs:23-34 | `new`: state is `Initial(T::default(), interval)` and the function is `f` |
| Cache.TimedCache.WithInitialValue | src/statusblock/cache.rs:39-52 | state is `Initial(initial, interval)` and the function is `f` |
| Cache.TimedCache.Default | src/statusblock/cache.rs:152-165 | state is `Initial(T::default(), None)` and the function always returns `T::default()` |
| Cache.TimedCache.Get | src/statusblock/cache.rs:68-76 | the new state is `Updated` of the old one, and the result is the new value |
| Cache.TimedCache.Update | src/statusblock/cache.rs:78-104 | the new state is exactly `Updated(old state, f(now), tick)`; the function is kept and the handles stay together |
| Cache.TimedCache.UpdateNow | src/statusblock/cache.rs:106-135 | the new state is exactly `UpdatedNow(old state, f(now), tick)` |
| Cache.TimedCache.AttachThreadpool | src/statusblock/cache.rs:137-144 | sets all three handles; value, last, interval and waiting are unchanged |
| Cache.TimedCache.Overwrite | src/statusblock/cache.rs:146-149 | replaces the value and stamps `now`; nothing else changes |
| Text.Spaces | src/statusblock/mod.rs:61 | `" ".repeat(n)` is `n` characters, all spaces |
| Text.Truncate | src/statusblock/mod.rs:56-58 | keeps the first `min(len, max)` characters, and leaves a short enough string unchanged |
| Text.Pad | src/statusblock/mod.rs:59-63 | the string, then spaces up to `min`, if it is shorter than `min` |
| Text.Clamp | src/statusblock.rs:47-56 | the first `min(len, max)` characters of the text, then only spaces, and exactly `min` long when the kept text is shorter |
| Text.ClampIdempotent | src/statusblock/mod.rs:56-63 | clamping a clamped string changes nothing |
| Text.ClampWithoutMinimum | src/statusblock.rs:49-51 | with only a maximum `m`, the clamp is the prefix of length `min(len, m)` |
| Text.ClampPadsToMinimum | src/statusblock.rs:52-56 | with a minimum `n`, the clamp is at least `n` long and is the truncated text followed only by spaces |
| Text.ClampExamples | src/statusblock.rs:163-183 | "a very long string" with maximum 10 is "a very lon"; "a short string" with minimum 20 gains six spaces |
| Text.Split | src/monitor.rs:41 | `split(" ")` gives at least one piece, no piece holds the separator, and joining the pieces with it gives back the text |
| Text.SplitJoin | src/monitor.rs:41 | splitting undoes joining when the parts hold no separator |
| Text.Join | src/cli.rs:37 | joining no parts gives ""; the join starts with the first part |
| Text.JoinSnoc | src/cli.rs:37 | appending a part to a join adds one separator, unless nothing was joined before |
| Block.DisplayEvaluatesNeverRefreshed | src/statusblock/mod.rs:67-82 | displaying a block that was never refreshed and has no pool evaluates it and shows the clamped output, stamped `now` |
| Block.RedisplayShowsStoredValue | src/statusblock/mod.rs:72-80 | when the cache does not change, the second clamp in `Display` leaves an already clamped value as stored |
| Block.StatusBlock.New | src/statusblock/mod.rs:22-27 | `new(f, interval)`: no name and no sizes, a fresh cache `Initial("", interval)` over `f` |
| Block.StatusBlock.Default | src/statusblock/mod.rs:13-19 | no name and no sizes, the default cache, whose function returns "" |
| Block.StatusBlock.AttachThreadpool | src/statusblock/mod.rs:29-32 | only the cache attaches the pool; name and sizes are untouched |
| Block.StatusBlock.Update | src/statusblock/mod.rs:35-41 | the cache's `update`, then `truncate_cache` (a second `update` through `get_mut`, then the clamp) |
| Block.StatusBlock.UpdateNow | src/statusblock/mod.rs:44-50 | the cache's `update_now`, then `truncate_cache` |
| Block.StatusBlock.TruncateCache | src/statusblock/mod.rs:52-64 | the cache's `update` through `get_mut`, then its value is replaced in place by its clamp |
| Block.StatusBlock.Display | src/statusblock/mod.rs:67-83 | the same `get_mut` and clamp as `truncate_cache`, and the clamped value is what is written |
| LegacyBlock.StatusBlock.Default | src/statusblock.rs:63-77 | empty name and cache, a command returning "", no interval, sizes or last update |
| LegacyBlock.StatusBlock.NeedsUpdate | src/statusblock.rs:19-34 | true when never refreshed; otherwise true exactly when an interval is set and strictly more than it has passed |
| LegacyBlock.StatusBlock.Update | src/statusblock.rs:37-42 | refreshes exactly when `needs_update`; otherwise cache and last update are untouched |
| LegacyBlock.StatusBlock.UpdateNow | src/statusblock.rs:45-60 | cache := clamp(command(now), min, max) and last := now |
| LegacyBlock.StatusBlock.Display | src/statusblock.rs:79-85 | writes the cache verbatim |
| Bar.Default | src/statusbar/mod.rs:17-27 | no blocks, empty delimiter and buffers, hiding on, and it renders "" |
| Bar.Kept | src/statusbar/mod.rs:36-38 | no kept text is hidden, no more texts are kept than given, all texts are kept when hiding is off, and none only when every text is hidden |
| Bar.PiecesAreJoinedKept | src/statusbar/mod.rs:33-45 | the loop's output is the kept texts joined by the delimiter, preceded by one delimiter exactly when block 0 is hidden and a later block is shown |
| Bar.VisibleRenderIsJoin | src/statusbar/mod.rs:33-46 | with hiding off, the blocks are all texts, empty ones included, joined by the delimiter in order |
| Bar.HiddenBlocksLeaveNoGap | src/statusbar/mod.rs:36-42 | with hiding on and block 0 shown, hidden blocks add no text and no delimiter |
| Bar.HiddenFirstBlockLeavesDelimiter | src/statusbar/mod.rs:40-42 | "" then "a" with hiding on renders "|a": a delimiter before the first shown block |
| Bar.Piece | src/statusbar/mod.rs:34-44 | a hidden block appends nothing; a shown block appends its text, preceded by the delimiter exactly when its index is neither 0 nor past the last |
| Bar.Pieces | src/statusbar/mod.rs:31-45 | what the loop has appended after the first k blocks; nothing while all of them are hidden |
| Bar.DrawsBlocks | src/statusbar/mod.rs:67-79 | "test1" and "test2" with no delimiter or buffers render "test1test2" |
| Bar.DrawsDelimiters | src/statusbar/mod.rs:81-97 | "test1", "test2" with " \| " between " >>> " and " <<< " render " >>> test1 \| test2 <<< " |
| Bar.DrawsEmptyBlocks | src/statusbar/mod.rs:99-117 | "test1", "", "test3" with hiding off render " >>> test1 \|  \| test3 <<< " |
| Bar.IgnoresEmptyBlocks | src/statusbar/mod.rs:119-137 | "test1", "", "test3" with hiding on render " >>> test1 \| test3 <<< " |
| Bar.Display | src/statusbar/mod.rs:29-50 | the left buffer, the loop's pieces for the blocks' displayed texts, then the right buffer |
| LegacyBar.Default | src/statusbar.rs:14-26 | no blocks, empty delimiter and buffers, hiding on |
| LegacyBar.Caches | src/statusbar.rs:34 | what the blocks write: each block's cache, in block order |
| LegacyBar.Concat | src/statusbar.rs:32-34 | no texts give ""; the result ends with the last text |
| LegacyBar.ConcatIsJoin | src/statusbar.rs:32-36 | the render is the texts joined with nothing between them |
| LegacyBar.ConcatAppend | src/statusbar.rs:34 | block order is kept: rendering a + b is rendering a, then rendering b |
| LegacyBar.TwoBlocks | src/statusbar.rs:56-70 | caches "test1" and "test2" render "test1test2" |
| LegacyBar.Display | src/statusbar.rs:28-38 | the concatenation of the blocks' caches; delimiter, buffers and the hide flag play no part; no blocks render "" |
| BlockBuilder.Default | src/statusblock/builder.rs:6-13 | nothing set |
| BlockBuilder.New | src/statusblock/builder.rs:17-19 | the function set; name, sizes and interval unset |
| BlockBuilder.Name | src/statusblock/builder.rs:23-26 | sets the name, every other field unchanged |
| BlockBuilder.MinSize | src/statusblock/builder.rs:28-31 | sets the minimum size, every other field unchanged |
| BlockBuilder.MaxSize | src/statusblock/builder.rs:33-36 | sets the maximum size, every other field unchanged |
| BlockBuilder.Function | src/statusblock/builder.rs:38-41 | sets the function, every other field unchanged |
| BlockBuilder.UpdateInterval | src/statusblock/builder.rs:43-46 | sets the interval, every other field unchanged |
| BlockBuilder.Build | src/statusblock/builder.rs:49-63 | a fresh block with the builder's name and sizes over a fresh cache `Initial("", interval)`, whose function is the builder's or always "" when none was set |
| BarBuilder.Default | src/statusbar/builder.rs:5-12 | no blocks, empty strings, hiding off |
| BarBuilder.New | src/statusbar/builder.rs:16-18 | the given blocks, empty strings, hiding off, unlike the bar's own default |
| BarBuilder.Blocks | src/statusbar/builder.rs:22-25 | replaces the blocks, every other field unchanged |
| BarBuilder.Delimiter | src/statusbar/builder.rs:27-30 | replaces the delimiter, every other field unchanged |
| BarBuilder.LeftBuffer | src/statusbar/builder.rs:32-35 | replaces the left buffer, every other field unchanged |
| BarBuilder.RightBuffer | src/statusbar/builder.rs:37-40 | replaces the right buffer, every other field unchanged |
| BarBuilder.HideEmptyModules | src/statusbar/builder.rs:42-45 | replaces the hide flag, every other field unchanged |
| BarBuilder.UpdateQueue | src/statusbar/builder.rs:50-57 | holds `(t, i)` exactly when block `i` has deadline `t`, each at most once, and has no more entries than there are blocks |
| BarBuilder.Build | src/statusbar/builder.rs:48-67 | copies blocks, delimiter, buffers and hide flag unchanged; the queue holds exactly the blocks' `(deadline, index)` pairs |
| Monitor.FirstPiece | src/monitor.rs:41-42 | the first piece is a given space-free word exactly when the message is that word or starts with it and a space; the pieces after it are the split of the rest |
| Monitor.Parse | src/monitor.rs:41-53 | no command exactly when the first piece is none of the three words; a bare "update" gives `Update([])`; "update " then a rest gives `Update` of the rest's pieces |
| Monitor.ParseCommandWord | src/monitor.rs:42-45 | `Refresh`, `Shutdown` and `Update` come exactly when the first piece is "refresh", "shutdown" or "update" |
| Monitor.EmptyMessage | src/monitor.rs:52 | the empty message gives no command |
| Monitor.TrailingNewline | src/monitor.rs:52 | "refresh\n" gives no command |
| Monitor.DoubledSpaceKeepsEmptyName | src/monitor.rs:45-51 | "update a  b" gives `Update(["a", "", "b"])` |
| Cli.Encode | src/cli.rs:37 | arguments without spaces split back into exactly those arguments |
| RoundTrip.ParseEncodedUpdate | src/cli.rs:37 | the client's message for `update` and space-free names parses as `Update` of exactly those names |
| RoundTrip.ParseEncodedRefresh | src/cli.rs:37 | the client's message for `refresh` parses as `Refresh` |
| RoundTrip.ParseEncodedShutdown | src/cli.rs:37 | the client's message for `shutdown` parses as `Shutdown` |

## Left out

- LegacyBlock.StatusBlock.Update: one instant `now` serves the staleness test of `needs_update`, the command and the stamp of `update_now`, whereas the source reads `Instant::now()` separately in src/statusblock.rs:28 and src/statusblock.rs:59, so it does not model time passing between the test and the refresh.
- The thread pool of src/threadpool.rs is not part of this model: no worker threads, no job or result channels. One cache call sees the pool only through the send outcome and the receive result in its `Tick`. The generic `ThreadPool<T>` that src/statusblock/cache.rs imports does not match that file either.
- Cache.TimedCache.Update: one `Tick` instant serves the staleness test, the function call and the `overwrite` stamp. The source reads `Instant::now()` at each of these steps.
- Cache.TimedCache.UpdateNow: the job itself is not modelled. Neither is the bounded(1) result channel, which can block a worker when a second job is sent while one is in flight.
- `Instant + Duration` overflow is not modelled; instants and durations are unbounded `nat`s. `duration_since` saturates at zero (`Clock.Elapsed`).
- The `Mutex` around the block's cache is modelled as exclusive ownership. Lock poisoning is not modelled.
- Lengths count characters, not UTF-8 bytes. The panic of `String::truncate` on a position that is not a character boundary is not modelled.
- Bar.Display: it takes the texts the blocks display as an argument (`shown[i]` for block `i`). Displaying a block also refreshes it, which is `Block.StatusBlock.Display`; composing the two calls for every block is not modelled.
- BarBuilder.Build: `next_update` is defined on no block type here. Each block's deadline is an argument of the shape of `Cache.Deadline`. The queue is the multiset of heap entries; the heap order is not modelled.
- The TCP listener and client are not modelled: bind, connect, `read_to_string`, `write`, the `unwrap`s, the `unimplemented!` on a send error, and sending the parsed command to the main loop.
- Command-line option parsing (getopts, `-h`) is not modelled. Only the message format of src/cli.rs:37 is.
- The main loop of src/main.rs and bin/src/main.rs, the configuration files, src/utils.rs (shell commands) and src/lib.rs are not part of this model. So are `StatusBar::update`, `time_until_next_update` and `run`, which the main loop calls but no modelled file defines.
