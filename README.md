# stacker.news notifications, zap button and `when` charts — a Dafny model

This project models three pieces of stacker.news:

- **The notifications resolver** (`api/resolvers/notifications.js`). It merges four kinds of event into one feed, newest first:
  - replies to the user's items;
  - "votifications", meaning zaps on the user's items, grouped per item;
  - mentions;
  - invite redemptions.

  Each page is a window `OFFSET offset LIMIT LIMIT` of that feed. A continuation cursor `{time, offset + LIMIT}` is returned exactly when the page is full. The user's `checkedNotesAt` is read and then, on a first page only, stamped with the current time. `__resolveType` and the per-type detail resolvers map each row back to its GraphQL type and its item or invite.
- **The zap button** (`components/upvote.js`). This covers:
  - the next tip it offers: the tip default, or turbo tipping's power-of-ten top-up;
  - its overlay text;
  - when it is disabled;
  - the two walkthrough popovers;
  - short and long presses;
  - the client-cache update after an `act` mutation, which credits the item and every ancestor on its path.
- **The `when` charts** (`components/when-charts.js`). This covers:
  - flattening each series entry into one record keyed by series name;
  - choosing which keys are drawn;
  - the x-axis name and the date and hour tick labels for each `when` period.

Files:

- `common.dfy` holds `Option` and `Result`.
- `decimal.dfy` holds decimal numerals, as in `::TEXT` and template literals, with a parse round trip.
- `feed_order.dfy` holds the row order, insertion sort, merge, windows, and the lemma that per-source caps are invisible.
- `notifications.dfy` holds the source queries, the page, the cursor, the read state and the resolver.
- `upvote.dfy` holds the zap button.
- `when_charts.dfy` holds the charts.

The SQL query is modelled on values.
- Each source is a function of the tables.
- Each per-source `LIMIT LIMIT+offset` is `Cap`, the first `k` rows in feed order.
- The outer `ORDER BY` is `Sort`.
- The main result is `Notifications.CapsPreservePage`: the page computed with the caps equals the same window of the uncapped, sorted union. This is the correctness argument behind the HACK comment at notifications.js:63-65.
- `PagesCoverFeed` and `SessionCoversFeed` build on it: following the cursors from a fresh session returns every row of the feed once, in feed order. Both rest on the single tie order described next; "## Left out" says what that leaves open.

Two points of the query shape the model:
- The Invitification query (notifications.js:100-105) has no `LIMIT`, so the model does not cap it. Only the Reply, Votification and Mention queries are capped.
- The SQL orders by `sortTime` only. The model breaks ties by kind, then id, then earned sats (`FeedOrder.Before`), and uses that one order in every subquery and in every request.

## Model

| member | source | states |
|---|---|---|
| Decimal.ParseNatToString | api/resolvers/notifications.js:67 | the decimal text of an id parses back to the id |
| Decimal.NatToStringInjective | api/resolvers/notifications.js:67 | two ids have the same `::TEXT` form iff they are equal |
| FeedOrder.LeNewerFirst | api/resolvers/notifications.js:106 | the row order puts a strictly newer `sortTime` first, as `ORDER BY "sortTime" DESC` does |
| FeedOrder.BeforeTotal | api/resolvers/notifications.js:106 | any two distinct rows are ordered one way, so the feed order is deterministic |
| FeedOrder.BeforeTransitive | api/resolvers/notifications.js:106 | the row order is transitive |
| FeedOrder.Sort | api/resolvers/notifications.js:106 | sorting keeps the number of rows; `SortIsSorted` and `SortMultiset` state order and contents |
| FeedOrder.SortIsSorted | api/resolvers/notifications.js:106-108 | the sorted union is in feed order |
| FeedOrder.SortMultiset | api/resolvers/notifications.js:106-108 | sorting neither drops nor duplicates a row |
| FeedOrder.SortedUnique | api/resolvers/notifications.js:106-108 | only one arrangement of a multiset of rows is in feed order, so the page does not depend on input order |
| FeedOrder.SortPermutation | api/resolvers/notifications.js:106-108 | two sources with the same rows sort to the same feed |
| FeedOrder.Window | api/resolvers/notifications.js:107-108 | `OFFSET offset LIMIT limit` returns `limit` rows, or all that are left after `offset`, or none past the end, and its `i`-th row is row `offset + i` |
| FeedOrder.DropSplit | api/resolvers/notifications.js:107-108 | the rows from `offset` on are this page followed by the rows from `offset + LIMIT` on, and a short page means nothing follows |
| FeedOrder.WindowAgrees | api/resolvers/notifications.js:107-108 | two feeds that agree on their first `offset + LIMIT` rows give the same page |
| FeedOrder.PagesCover | api/resolvers/notifications.js:107-117 | reading windows of `LIMIT` rows from `offset`, stopping after the first short one, yields every row from `offset` on, once each and in order |
| FeedOrder.Merge | api/resolvers/notifications.js:106 | a proof device, not a step of the query: merging two row lists keeps the number of rows of both; it meets the sorted union only through `SortConcat` |
| FeedOrder.MergeSorted | api/resolvers/notifications.js:106 | a proof device: merging two feed-ordered row lists keeps feed order, which `SortConcat` uses |
| FeedOrder.SortConcat | api/resolvers/notifications.js:75-106 | sorting a `UNION ALL` of two row lists is merging the two sorted lists, so each source may be sorted on its own |
| FeedOrder.Cap | api/resolvers/notifications.js:73-74 | a capped source returns at most `k` of its rows, exactly `k` when it has that many, and all of them when it has no more |
| FeedOrder.CapKeepsFirst | api/resolvers/notifications.js:73-74 | a capped source keeps exactly its `k` first rows in feed order |
| FeedOrder.CapsPreserveTop | api/resolvers/notifications.js:63-65 | capping the Reply, Votification and Mention sources at `k` does not change the first `k` rows of the union with the uncapped Invitification rows |
| FeedOrder.CapsPreserveWindow | api/resolvers/notifications.js:63-108 | capping each source at `offset + LIMIT` does not change the window at `offset` of the sorted union |
| Notifications.FindItem | api/resolvers/notifications.js:70 | the join finds an item with the given id, or reports that there is none |
| Notifications.FindItemUnique | api/resolvers/notifications.js:70 | with ids as a primary key, the join finds that very item |
| Notifications.ReplyRows | api/resolvers/notifications.js:67-74 | every selected row is a Reply with no earned sats and a time no later than the cursor time, and no more rows are selected than items scanned |
| Notifications.ReplyRowsOnePerItem | api/resolvers/notifications.js:68-70 | with item ids a primary key, no two Reply rows carry the same item id |
| Notifications.ReplyRowsExactly | api/resolvers/notifications.js:67-74 | a Reply row exists iff some item by another user, created no later than the cursor time, answers an item of the user |
| Notifications.QualifyingActs | api/resolvers/notifications.js:79-83 | the acts counted for an item are exactly its acts by other users, no later than the cursor time, and not BOOST (membership) |
| Notifications.QualifyingActsCount | api/resolvers/notifications.js:79-83 | each such act is counted exactly as many times as the table holds it, every other act never |
| Notifications.SumSatsPermutation | api/resolvers/notifications.js:77 | `sum` over a group does not depend on the order of its rows |
| Notifications.MaxOf | api/resolvers/notifications.js:76 | `MAX` returns an element no smaller than any other |
| Notifications.VoteRows | api/resolvers/notifications.js:76-86 | every selected row is a Votification carrying earned sats, and no more rows are selected than items scanned; `VoteRowsOnePerItem` states one per item |
| Notifications.VoteRowsNoLater | api/resolvers/notifications.js:76-81 | no Votification is later than the cursor time, since it takes the time of a qualifying act |
| Notifications.VoteRowsExactly | api/resolvers/notifications.js:76-86 | a Votification row exists iff an item of the user has at least one qualifying act |
| Notifications.VoteRowAggregates | api/resolvers/notifications.js:76-77 | a Votification's `sortTime` is the time of a qualifying act that none is later than, and its `earnedSats` is the sum over a list holding each qualifying act of the table as often as the table does (`SumSatsPermutation`: in any order) |
| Notifications.VoteRowsOnePerItem | api/resolvers/notifications.js:84 | grouping gives at most one Votification per item |
| Notifications.MentionRows | api/resolvers/notifications.js:88-98 | every selected row is a Mention with no earned sats and a time no later than the cursor time, and no more rows are selected than mention records scanned |
| Notifications.MentionRowsOnePerItem | api/resolvers/notifications.js:88-93 | when a user is mentioned at most once per item, no two Mention rows carry the same item id |
| Notifications.MentionRowsExactly | api/resolvers/notifications.js:88-98 | a Mention row exists iff the user was mentioned, early enough, in an item by someone else that does not answer one of the user's items |
| Notifications.MentionNeverSelf | api/resolvers/notifications.js:95-96 | an item by the user, or a reply to one of their items, never yields a Mention |
| Notifications.JoinTimes | api/resolvers/notifications.js:102-104 | the join times of an invite are those of the users who joined through it, no later than the cursor time |
| Notifications.InviteRows | api/resolvers/notifications.js:100-105 | every selected row is an Invitification with no earned sats and a time no later than the cursor time, and no more rows are selected than invites scanned |
| Notifications.InviteRowsOnePerInvite | api/resolvers/notifications.js:100-105 | with invite ids a primary key, no two Invitification rows carry the same invite id |
| Notifications.InviteRowsExactly | api/resolvers/notifications.js:100-105 | an Invitification row exists iff an invite of the user was redeemed no later than the cursor time |
| Notifications.InviteRowLatestJoin | api/resolvers/notifications.js:100-104 | an Invitification is timed at the latest redemption: no earlier than any qualifying join, no later than the cursor time, and equal to the join time of some user who joined through the invite |
| Notifications.Select | api/resolvers/notifications.js:66-105 | no row of the four selections is later than the cursor time, so events after the session's pinned time stay out |
| Notifications.CappedRows | api/resolvers/notifications.js:66-105 | the capped union holds at most `k` rows from each of the three capped queries plus the Invitification rows |
| Notifications.Feed | api/resolvers/notifications.js:66-108 | the feed has exactly as many rows as the four selections together, and none is later than the cursor time |
| Notifications.FeedSorted | api/resolvers/notifications.js:66-106 | the feed is in feed order and contains exactly the rows of the four sources |
| Notifications.PageRows | api/resolvers/notifications.js:106-108 | a page has at most `LIMIT` rows |
| Notifications.PageSorted | api/resolvers/notifications.js:106-108 | a page is in feed order, newest `sortTime` first |
| Notifications.CapsPreservePage | api/resolvers/notifications.js:63-108 | the page computed with capped sources is the window `[offset, offset + LIMIT)` of the full feed |
| Notifications.Decode | api/resolvers/notifications.js:8 | no cursor means `{now, 0}`, and a given cursor is used as it is |
| Notifications.Next | api/resolvers/notifications.js:117 | the next cursor keeps the session's time and advances the offset by one page |
| Notifications.Continuation | api/resolvers/notifications.js:117 | a cursor is returned iff the page is full, and then it is the next one |
| Notifications.FollowIsPages | api/resolvers/notifications.js:117 | when every request at the pinned time returns the feed's window at its offset, following the cursors reads the feed window by window |
| Notifications.FollowBound | api/resolvers/notifications.js:108-117 | requests that return at most `LIMIT` rows each yield at most `n * LIMIT` rows in `n` requests |
| Notifications.Collect | api/resolvers/notifications.js:106-117 | a client following cursors for `n` requests receives at most `n * LIMIT` rows |
| Notifications.PagesCoverFeed | api/resolvers/notifications.js:106-117 | following cursors from any cursor returns the rest of the feed from its offset, with nothing lost or repeated, under the model's fixed tie order |
| Notifications.SessionCoversFeed | api/resolvers/notifications.js:8-117 | a session started without a cursor collects the whole feed at the session's time |
| Notifications.UserRecord.CheckNotes | api/resolvers/notifications.js:110-113 | returns the previous `checkedNotesAt`; a first page stamps it with now and any other page leaves it alone |
| Notifications.Notifications | api/resolvers/notifications.js:7-119 | a signed-out caller is refused and nothing changes; otherwise the result has the previous read time, the page and the continuation, and the read state is stamped only on a first page |
| Notifications.KindNamed | api/resolvers/notifications.js:123 | a type name resolves only to the kind of that name |
| Notifications.ResolveTypeRoundTrip | api/resolvers/notifications.js:123 | every row's `type` resolves back to its own kind |
| Notifications.ResolveDetail | api/resolvers/notifications.js:125-143 | an Invitification resolves to its invite, any other row to its item, and only a Mention carries `mention: true` |
| Upvote.TipBase | components/upvote.js:201 | the base tip is the user's tip default when it is positive, and one sat when it is absent or zero or nobody is signed in |
| Upvote.Raise | components/upvote.js:202-206 | the turbo loop stops above the zapped total and never below the base |
| Upvote.RaiseIsLeastPower | components/upvote.js:202-206 | the loop stops at the least `base * 10^k` above the zapped total |
| Upvote.TipFor | components/upvote.js:201-209 | the next tip is always at least one sat |
| Upvote.PlainTip | components/upvote.js:201 | without turbo tipping the tip is the base: the user's positive default, or 1 when the default is absent or zero |
| Upvote.TurboTip | components/upvote.js:202-209 | with turbo tipping the tip tops the zapped total up to the least power-of-ten multiple of the base above it |
| Upvote.OverlayText | components/upvote.js:211 | the text is "1 sat" iff the tip is 1, and ends in "s" iff the tip is more than 1 |
| Upvote.OverlayRoundTrip | components/upvote.js:211 | reading the overlay text back gives the offered tip |
| Upvote.Display | components/upvote.js:197-212 | the shown total, the next tip and the overlay text are `ShownMeSats`, `TipFor` and `OverlayText`; the loop is proved against `Raise` |
| Upvote.ShownMeSats | components/upvote.js:198 | the shown total is at least the pending sats, and equals them iff there is no item or the cached total is absent or 0 |
| Upvote.Disabled | components/upvote.js:193-195 | only an item can disable the button; an own or deleted item always does; for a signed-in user it is disabled iff the item is theirs, deleted, or forwarded to them, and for a signed-out user the forward rule does not apply |
| Upvote.PressedPending | components/upvote.js:233-250 | a short press never lowers the pending sats, and raises them iff there is an item the user may zap |
| Upvote.PressAddsTip | components/upvote.js:233-250 | a short press never lowers the pending sats, and leaves them unchanged iff there is no item or the item is the user's own, forwarded to them, or deleted |
| Upvote.PopoverStep | components/upvote.js:81-93 | a popover is recorded as seen iff it was showing and gets hidden, and it only appears when asked for by an eligible user |
| Upvote.PopoverStepIdempotent | components/upvote.js:81-108 | repeating a show or hide request changes nothing and records nothing |
| Upvote.PopoverStepOutcome | components/upvote.js:81-108 | a hide request always hides; a show request shows iff the popover was showing or the user is eligible |
| Upvote.UpVote.constructor | components/upvote.js:69-70 | both popovers start hidden and no walkthrough has been recorded |
| Upvote.UpVote.SetVoteShow | components/upvote.js:81-93 | the vote popover follows `PopoverStep`, and `upvotePopover` is recorded exactly when it is hidden |
| Upvote.UpVote.SetTipShow | components/upvote.js:95-108 | the tip popover follows `PopoverStep`, and `tipPopover` is recorded exactly when it is hidden |
| Upvote.UpVote.ShortPress | components/upvote.js:233-250 | pending sats grow by the next tip unless the button is disabled, and the vote popover is hidden once the item is zapped |
| Upvote.UpVote.LongPress | components/upvote.js:219-231 | an enabled long press hides the tip popover and changes nothing else |
| Upvote.UpVote.ActUpdate | components/upvote.js:117-150 | the cache becomes `AfterAct` of the old cache; the first zap offers the vote popover and a later one the tip popover, when the user had the sats |
| Upvote.ItemCache.constructor | components/upvote.js:117 | the cache holds the given entities |
| Upvote.ItemCache.CreditItem | components/upvote.js:118-136 | the item's `sats` and `meSats` grow by the amount, starting from 0 when absent |
| Upvote.ItemCache.AddCommentSats | components/upvote.js:141-148 | an ancestor's `commentSats` grows by the amount, starting from 0 when absent |
| Upvote.Credit | components/upvote.js:118-136 | the cached ids stay the same, every other entity is unchanged, and a cached item gains the amount in `sats` and `meSats` (from 0 when absent) with `commentSats` untouched |
| Upvote.AddComment | components/upvote.js:141-148 | the cached ids stay the same, every other entity is unchanged, and a cached entity gains the amount in `commentSats` (from 0 when absent) with its other counters untouched |
| Upvote.BumpAncestors | components/upvote.js:138-149 | the walk over the path keeps the cached ids and never changes the item itself |
| Upvote.OffPathUnchanged | components/upvote.js:138-149 | an entity whose id is not on the path is left as it was |
| Upvote.AfterAct | components/upvote.js:117-149 | the update keeps the cached ids and leaves every entity that is neither the item nor on its path as it was |
| Upvote.BumpAncestorsEffect | components/upvote.js:138-149 | the walk over the path adds the amount to an entity's `commentSats` once per occurrence of its id, never to the item itself, and changes no other field or entity |
| Upvote.AncestorsCreditedOnce | components/upvote.js:138-149 | on a path without repeats, every cached ancestor gains exactly the amount |
| Upvote.ActOnItem | components/upvote.js:118-136 | the zapped item's `sats` and `meSats` grow by the amount, and its `commentSats` stays the same |
| WhenCharts.Get | components/when-charts.js:38 | a property is missing iff its key is not among the object's keys |
| WhenCharts.Set | components/when-charts.js:38 | after an assignment the key holds the new value and every other key keeps its value |
| WhenCharts.SetKeys | components/when-charts.js:38 | assigning an existing key keeps the key order, and a new key is appended |
| WhenCharts.SetDistinct | components/when-charts.js:38 | assignment never lists a key twice |
| WhenCharts.LookupIsLast | components/when-charts.js:37-39 | a series is missing iff no datum has its name; otherwise the last datum of that name wins |
| WhenCharts.Assign | components/when-charts.js:37-39 | the object keeps every key it had and gains at most one property per datum |
| WhenCharts.Build | components/when-charts.js:36-39 | a flattened record has a `time` property and at most one more property per datum |
| WhenCharts.BuildGet | components/when-charts.js:36-39 | a flattened record maps each series name to its last value, and `time` to the entry's time unless a series is named `time` |
| WhenCharts.BuildKeys | components/when-charts.js:36-39 | a flattened record has distinct keys, `time` first, and exactly `time` plus the series names |
| WhenCharts.TransformData | components/when-charts.js:34-42 | every entry becomes its flattened record, in the same order |
| WhenCharts.Flatten | components/when-charts.js:36-40 | the inner loop builds exactly the flattened record `Build` |
| WhenCharts.SeriesKeys | components/when-charts.js:81 | the drawn series are exactly the record's keys other than `time` and `__typename`, in the record's key order, on which each series' colour depends |
| WhenCharts.RenderedSeries | components/when-charts.js:55-81 | nothing is drawn iff the data is missing or empty |
| WhenCharts.RenderedSeriesNames | components/when-charts.js:55-81 | when there is data, the series drawn are exactly the first entry's series names other than `time` and `__typename` |
| WhenCharts.XAxisName | components/when-charts.js:21-32 | the axis is "days" exactly for `week` and `month`, "months" exactly for `year` and `forever`, and "hours" for anything else, including no period |
| WhenCharts.LastTwo | components/when-charts.js:11 | `slice(-2)` is the suffix of length two, or the whole of a shorter string |
| WhenCharts.MonthText | components/when-charts.js:11 | the month is two digits naming the month number 1 to 12 |
| WhenCharts.YearText | components/when-charts.js:14 | the year shows the last two characters of its numeral: from year 0 on it reads back as the year modulo 100 (one digit below 10), from -9 to -1 it is a minus sign and the digit, and from -10 down it reads back as the magnitude modulo 100 |
| WhenCharts.HourNumber | components/when-charts.js:16 | the hour shown is between 1 and 12 |
| WhenCharts.HourLabel | components/when-charts.js:16 | an hour label ends in "pm" iff the hour is 12 or later |
| WhenCharts.DayLabel | components/when-charts.js:9-11 | a day label has a two-digit month, a `/`, and at least one more character |
| WhenCharts.MonthLabel | components/when-charts.js:12-14 | a month label has a two-digit month, a `/`, and one or two more characters |
| WhenCharts.DateLabel | components/when-charts.js:5-32 | the tick labels match the axis name: day labels for "days", month labels for "months", hour labels for "hours" |
| WhenCharts.DayLabelRoundTrip | components/when-charts.js:9-11 | a day label reads back as the month and the day of the month |
| WhenCharts.MonthLabelRoundTrip | components/when-charts.js:12-14 | a month label reads back as the month and the year modulo 100 (for a negative year, its magnitude modulo 100); a year from -9 to -1 shows as a minus sign and its digit |
| WhenCharts.HourRoundTrip | components/when-charts.js:15-16 | an hour label reads back as the hour of the day |

## Left out

- The cursor token encoding is not part of this model.
  - `lib/cursor` (`decodeCursor`, `nextCursorEncoded`, `LIMIT`) is not part of this model.
  - A token is its decoded `Cursor`, so no malformed token can be expressed.
  - `LIMIT` is a parameter that must be positive.
- `new Date()` is a parameter.
  - `decodeCursor`'s clock and the `checkedNotesAt` stamp are separate parameters, because the source reads the clock twice.
- The database engine is not modelled.
  - Prisma, the SQL text, and query failures are out of scope.
  - Tables are sequences of records, and item ids are a primary key.
  - The large commented-out query at notifications.js:13-61 is not code, so it is not modelled.
- SQL's order among rows with equal `sortTime` is not modelled, because the SQL leaves it open. The model fixes one total order.
- Notifications.PagesCoverFeed: assumes the same tie order in every subquery and in every request. PostgreSQL does not promise that, so the real resolver may repeat or skip rows that share a `sortTime` across a page boundary.
- Notifications.SessionCoversFeed: rests on the same fixed tie order as `PagesCoverFeed`.
- Notifications.MentionRows: gives one row per `Mention` record, so an item yields one Mention row only when the user is mentioned in it once. The database schema is not part of this model; `MentionRowsOnePerItem` takes that uniqueness as its precondition.
- Notifications.InviteRows: gives one row per `Invite` record, while `GROUP BY "Invite".id` (notifications.js:105) gives one per id. The two agree because invite ids are a primary key.
- `getItem` and the invite lookup are not part of this model. The detail resolvers return the id they would look up.
- Several zap-button behaviours are left out because they are timing, rendering or error handling:
  - the debounced `act` effect (upvote.js:158-191);
  - the insufficient-funds modal;
  - the custom-amount dialog of a long press;
  - `strike()`;
  - the sign-up redirect for signed-out users;
  - `getColor`.
- The display memo lists `me?.turboDefault` among its dependencies, not `turboTipping`. Memoisation is not modelled, so the values are always current.
- Apollo's `cache.modify` is modelled as follows:
  - it does nothing to an entity that is not cached;
  - it runs a field modifier with the field's default of 0 when the field is absent.
  - Apollo skips modifiers for absent fields, so this model credits fields that Apollo would leave absent.
- `item.path.split('.')` followed by `Number(id)` is not modelled. The path is given as a sequence of ids.
- Upvote.TipBase: the tip default and the user's sats are non-negative (`Me.tipDefault` is an `Option<nat>`). A negative default is truthy, so with turbo tipping the loop at upvote.js:204-206 would multiply a negative `raiseTip` forever; the model cannot express that input.
- Numbers are unbounded integers. JavaScript's floating-point sats and GraphQL's 32-bit `Int` are not modelled.
- In the `when` charts, several things are left out:
  - `Date` parsing and time zones: dates are given as their UTC month, day and year and their local hour;
  - `abbrNum`;
  - the `COLORS` entries beyond the sixth series;
  - the recharts rendering;
  - a `when` query given as an array.
- Object key order is insertion order. JavaScript lists integer-like keys first, and that rule is not modelled.
- Notifications.PagesCoverFeed: needs a page budget `n` large enough to reach the end of the feed. SessionCoversFeed supplies `|feed| / LIMIT + 1`.
