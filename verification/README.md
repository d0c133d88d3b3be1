# Contact identity reconciliation, modelled in Dafny

The `identifyContact` handler takes an optional email and an optional phone
number. It links them to the customer they belong to and answers with that
customer's consolidated view. Contacts live in one table. A *primary* contact
stands for a customer, and *secondary* contacts link to it through `linkedId`.
One call does the following:

1. Looks up the rows whose email or phone equals a truthy request value.
2. Collects the *anchors*: the id of every matched primary and the `linkedId`
   of every matched row.
3. Expands the anchors to every row whose id or link is an anchor.
4. Picks the oldest primary of that expansion as the *survivor* and demotes
   every other primary to a secondary of it.
5. Adds one secondary when the request brings an email or phone that the
   survivor's cluster does not carry.
6. Answers with the survivor id, the distinct emails and phones of the cluster
   in first-appearance order, and the ids of its secondaries.

The model is a pure function from a table and a request to a new table and a
reply:

- `Contacts` holds the record, the table as a sequence in insertion order, and
  the three kinds of table operation the handler issues. These are an
  order-preserving filter (`Select`), which serves all three `findMany` lookups,
  a single-row link update (`Update`) and an insert under a fresh id (`Create`).
- `Identify` holds each step of the handler and the handler itself, `Run`. A
  flag of `Run` selects the merge: as written, or with the correction described
  under Findings.
- `IdentifyProperties` proves what one call does to the table and what it
  replies.
- `Reparenting` proves that the handler never fails on a star-shaped table, and
  that the corrected handler keeps tables star-shaped. A star-shaped table is
  one where every link points at a primary. It also exhibits the failure of the
  code as written.
- `Idempotence` proves that retrying a request changes nothing and returns the
  same reply.
- `Handler` holds the two entry points, with contracts that gather the results
  above.
  - `Resolve` is the handler as written.
  - `ResolveReparenting` is the corrected handler.

Truthiness is explicit. `Present(o)` holds for a `Some` value that is not the
empty string, which is what `!email` and `.filter(Boolean)` test. Request
values are stored exactly as given. A stored empty string therefore behaves
like a missing value everywhere, as it does in the code.

The merge at lines 85-93 of `src/controllers/identifyController.ts` demotes the
other primaries but leaves their secondaries linked to them. The lookups at
lines 98-103 and 132-137 fetch the rows whose id is the survivor's or that link
to it. They see a whole cluster only when every link names a primary, and the
merge breaks that. `Resolve` follows the code. `ResolveReparenting` also points
those secondaries at the survivor (see "## Findings").

## Model

| member | source | states |
|---|---|---|
| `Identify.Run` | src/controllers/identifyController.ts:6-166 | The reply is a 400 exactly when neither email nor phone is truthy, and the table is then untouched. Otherwise the table grows by at most one row. Every old row keeps its id, identifiers and creation time; only its precedence and link may change. |
| `Handler.Resolve` | src/controllers/identifyController.ts:6-166 | The handler as written answers 400 exactly when no identifier is truthy, grows the table by at most one row, and changes only the precedence and link of old rows. On a well-formed table, called no earlier than any row was created, it keeps the table well formed, and a retry at any later time writes nothing and gives the same reply. On a star-shaped table every request with an identifier gets a view. |
| `Handler.ResolveReparenting` | src/controllers/identifyController.ts:83-93 | The corrected handler keeps all the promises of `Handler.Resolve`. It also keeps a star-shaped table star-shaped, so every later request with an identifier gets a view. |
| `Contacts.Select` | src/controllers/identifyController.ts:15-23 | A query returns the rows satisfying its condition and no others, never more rows than the table. It is empty exactly when no row qualifies, and it keeps creation order. |
| `Contacts.SelectCounts` | src/controllers/identifyController.ts:15-23 | A query returns each qualifying row exactly as many times as the table holds it, and no other row. |
| `Contacts.FreshId` | src/controllers/identifyController.ts:29-35 | The id given to an inserted row is above every id in the table. |
| `Contacts.Create` | src/controllers/identifyController.ts:119-126 | An insert keeps every row, appends one row under an id not yet used, and stores the given email, phone, precedence, link and time. |
| `Contacts.Update` | src/controllers/identifyController.ts:86-92 | An update by id changes only the precedence and link of the rows with that id. |
| `Identify.Anchors` | src/controllers/identifyController.ts:50-55 | An id is an anchor exactly when some matched row is a primary with that id or links to it. |
| `Identify.Expanded` | src/controllers/identifyController.ts:57-65 | The expansion holds exactly the rows whose id is an anchor or that link to an anchor, in creation order. |
| `Identify.ExpandedIsUnion` | src/controllers/identifyController.ts:57-65 | A row is in the expansion exactly when it is in the cluster of some anchor. |
| `Identify.OldestIndex` | src/controllers/identifyController.ts:74-76 | The reduce returns a position of minimal creation time, and every earlier position is strictly younger. Ties therefore go to the first in table order. |
| `Identify.SurvivorIn` | src/controllers/identifyController.ts:70-78 | There is no survivor exactly when the expansion holds no primary, which is where `reduce` throws. Otherwise the survivor is a primary of the expansion, and no primary of the expansion is older. |
| `Identify.OthersOf` | src/controllers/identifyController.ts:83 | The other primaries are exactly the primaries of the expansion whose id is not the survivor's. |
| `Identify.DemoteAll` | src/controllers/identifyController.ts:85-93 | The update loop turns exactly the rows with an id among the other primaries into secondaries of the survivor and keeps every other row. |
| `Identify.Relink` | src/controllers/identifyController.ts:85-93 | This is the corrected merge's extra step, which the code lacks. Rows linked to a demoted id are pointed at the survivor, and all other rows are kept. |
| `Identify.Merge` | src/controllers/identifyController.ts:85-93 | The merge changes only precedence and link fields, and every row it changes links to the survivor afterwards. |
| `Identify.Cluster` | src/controllers/identifyController.ts:98-103 | A cluster holds exactly the rows with the survivor's id or linked to it, in creation order. |
| `Identify.FirstCarrier` | src/controllers/identifyController.ts:147-153 | The position of the first row carrying a value in a column: it carries the value, and no earlier row does. |
| `Identify.Collect` | src/controllers/identifyController.ts:147-153 | The distinct truthy values of a column have no duplicates. A value is listed exactly when some row carries it, in the order of first carriers. |
| `Identify.Novel` | src/controllers/identifyController.ts:108-118 | A request is novel exactly when its truthy email or truthy phone is carried by no row of the cluster. |
| `Identify.FirstPrimary` | src/controllers/identifyController.ts:139-141 | `find` gives the first primary of the final cluster, or nothing exactly when the cluster has no primary. |
| `Identify.SecondaryIds` | src/controllers/identifyController.ts:143-145 | An id is listed exactly when it belongs to a secondary of the final cluster. |
| `Identify.Consolidate` | src/controllers/identifyController.ts:139-161 | There is no view exactly when the final cluster has no primary. Otherwise the view names the first primary of the cluster. It lists exactly the emails and phones the cluster carries, and the ids of its secondaries. |
| `Identify.Settle` | src/controllers/identifyController.ts:83-161 | The match branch never answers 400 and adds at most one row. Every old row keeps its id, identifiers and creation time. |
| `IdentifyProperties.CreateKeepsWf` | src/controllers/identifyController.ts:29-35 | Inserting a row with a truthy identifier, with a link exactly when it is secondary, and with a link to an existing row, keeps the table well formed. This holds for a row created now. |
| `IdentifyProperties.AppendKeepsWf` | src/controllers/identifyController.ts:119-126 | Appending a row with an unused id, created now, with a truthy identifier and a link exactly when it is secondary, keeps the table well formed. |
| `IdentifyProperties.MergeFacts` | src/controllers/identifyController.ts:85-93 | The merge changes only link fields and never promotes a row. It keeps the survivor's row, and every row it changes becomes a secondary of the survivor. |
| `IdentifyProperties.MergeKeepsWf` | src/controllers/identifyController.ts:85-93 | The merge keeps a well-formed table well formed, with the same ids and creation times. |
| `IdentifyProperties.MergeKeepsIds` | src/controllers/identifyController.ts:86-92 | The merge keeps every row's id, identifiers and creation time. |
| `IdentifyProperties.SettleKeepsWf` | src/controllers/identifyController.ts:83-127 | The writes of the match branch keep a well-formed table well formed. |
| `IdentifyProperties.RunKeepsWf` | src/controllers/identifyController.ts:6-166 | Well-formedness holds after every call, in both merge modes. Well formed means unique ids, a link exactly on secondaries, links to existing rows, a truthy identifier per row, and creation order. |
| `IdentifyProperties.CarriedInCluster` | src/controllers/identifyController.ts:98-113 | A value is carried by the fetched cluster exactly when some row with the survivor's id, or linked to it, carries it. |
| `IdentifyProperties.MatchBranch` | src/controllers/identifyController.ts:50-78 | When a survivor exists, something matched, and the call is the merge-and-answer step for that survivor and the other primaries. |
| `IdentifyProperties.SurvivorInTable` | src/controllers/identifyController.ts:70-78 | The survivor is a primary row of the table. |
| `IdentifyProperties.DemotedRows` | src/controllers/identifyController.ts:83-93 | With unique ids, a row is updated by the loop exactly when it is a primary of the expansion other than the survivor. |
| `IdentifyProperties.SettlePrefix` | src/controllers/identifyController.ts:98-127 | After the match branch the merged table is a prefix of the result. A row was added exactly when the request is novel for the survivor's cluster. |
| `IdentifyProperties.SettleShape` | src/controllers/identifyController.ts:118-127 | The match branch appends at most one row, and that row is a secondary of the survivor. |
| `IdentifyProperties.NoMatchCreatesPrimary` | src/controllers/identifyController.ts:28-44 | When no row matches, exactly one row is appended: a primary without a link, with the request's values and an unused id. The reply names it, lists the truthy email and phone, and has no secondaries. |
| `IdentifyProperties.DemotesOtherPrimaries` | src/controllers/identifyController.ts:83-93 | In the code as written, every old row of the table comes out demoted to the survivor if it is another primary of the expansion, and unchanged otherwise. This includes the secondaries of a demoted primary. |
| `IdentifyProperties.ReparentsDemotedClusters` | src/controllers/identifyController.ts:83-93 | In the corrected handler, the other primaries are demoted, rows linked to them are pointed at the survivor, and every other old row is unchanged. |
| `IdentifyProperties.SettleAddsWhenNovel` | src/controllers/identifyController.ts:108-127 | The match branch adds a row exactly when a truthy request value is carried by no row of the merged cluster. The added row holds the request's pair, is a secondary, links to the survivor and has an unused id. |
| `IdentifyProperties.AddsSecondaryOnlyWhenNovel` | src/controllers/identifyController.ts:108-127 | The same as `SettleAddsWhenNovel`, for a whole call on a well-formed table. |
| `IdentifyProperties.NoPromotionNoMorePrimaries` | src/controllers/identifyController.ts:85-93 | A table whose primaries are, position by position, primaries of another table has no more primaries than it. |
| `IdentifyProperties.SettleAddsNoPrimary` | src/controllers/identifyController.ts:85-127 | The match branch never increases the number of primaries. |
| `IdentifyProperties.MatchNeverAddsPrimaries` | src/controllers/identifyController.ts:85-127 | When some row matches, a call adds at most one row and never increases the number of primaries. |
| `IdentifyProperties.SettleFindsSurvivor` | src/controllers/identifyController.ts:132-141 | When the survivor's row is a primary outside the demoted set, it is kept, and the final `find` succeeds. |
| `IdentifyProperties.MatchBranchSucceeds` | src/controllers/identifyController.ts:132-162 | On a well-formed table, once a survivor exists, the call answers with a view, and the survivor's row is unchanged. |
| `IdentifyProperties.NoSurvivorFails` | src/controllers/identifyController.ts:70-78 | When something matched but the expansion holds no primary, `reduce` throws before any write: the reply is 500 and the table is unchanged. |
| `IdentifyProperties.ServerErrorExactly` | src/controllers/identifyController.ts:163-165 | On a well-formed table a call answers 500 exactly when a truthy identifier matched some row but the expansion holds no primary. A 500 leaves the table unchanged. |
| `IdentifyProperties.ClusterPrimary` | src/controllers/identifyController.ts:139-141 | In a table with links exactly on secondaries, the primary that `find` returns from a cluster is the survivor. |
| `IdentifyProperties.ClusterSecondaries` | src/controllers/identifyController.ts:143-145 | With unique ids, the secondaries of the survivor's cluster are exactly the rows linked to the survivor. |
| `IdentifyProperties.ClusterValues` | src/controllers/identifyController.ts:147-153 | The reply's emails and phones are exactly the values carried by a row of the survivor's cluster. |
| `IdentifyProperties.SettleReply` | src/controllers/identifyController.ts:132-161 | The match branch's reply names the survivor, lists exactly the cluster's emails and phones, and lists exactly the ids of rows linked to the survivor. |
| `IdentifyProperties.ReplyDescribesSurvivorCluster` | src/controllers/identifyController.ts:132-161 | On a well-formed table, called no earlier than any row was created, the reply covers exactly the survivor's cluster: its id, the emails and phones the cluster carries, and the rows linked to it. |
| `Reparenting.SurvivorExists` | src/controllers/identifyController.ts:70-76 | When every secondary links to a primary, any non-empty match leads to a survivor. |
| `Reparenting.SurvivorExistsOnStar` | src/controllers/identifyController.ts:70-76 | On a star-shaped table, `reduce` always gets a primary. |
| `Reparenting.NeverFailsOnStar` | src/controllers/identifyController.ts:6-166 | On a star-shaped table, a request with a truthy identifier always gets a view, in both merge modes. |
| `Reparenting.MergeReparentingKeepsLinks` | src/controllers/identifyController.ts:85-93 | The corrected merge keeps the survivor a primary and every link pointing at a primary. |
| `Reparenting.ExtendKeepsLinks` | src/controllers/identifyController.ts:118-127 | Adding a secondary of a primary keeps every link pointing at a primary. |
| `Reparenting.CreatePrimaryKeepsLinks` | src/controllers/identifyController.ts:28-35 | Inserting a new primary keeps every link pointing at a primary. |
| `Reparenting.MatchKeepsLinks` | src/controllers/identifyController.ts:83-127 | The corrected match branch keeps every link pointing at a primary. |
| `Reparenting.ReparentingKeepsStar` | src/controllers/identifyController.ts:83-93 | The corrected handler keeps a star-shaped table star-shaped. |
| `Reparenting.AsWrittenStrandsSecondary` | src/controllers/identifyController.ts:83-93 | Take a star-shaped table of two clusters and a request that merges them. The code as written leaves a row linked to the demoted primary, so the table is no longer star-shaped. Its reply already lacks that row: the view lists rows 1 and 2 only. |
| `Reparenting.StrandedView` | src/controllers/identifyController.ts:132-161 | After that merge, the view of the survivor has email `a`, phone `ph` and secondary 2. Row 3's email `b` and its id are missing. |
| `Reparenting.AsWrittenFailsAfterMerge` | src/controllers/identifyController.ts:50-78 | On that table, a request matching only the stranded row expands to no primary. The code as written then answers 500 and leaves the table unchanged. |
| `Idempotence.RepeatAfterNewPrimary` | src/controllers/identifyController.ts:28-44 | Repeating a request that created a primary writes nothing and gives the same reply. |
| `Idempotence.RepeatAfterMatch` | src/controllers/identifyController.ts:50-161 | Repeating a request that found a survivor writes nothing and gives the same reply. |
| `Idempotence.Idempotent` | src/controllers/identifyController.ts:6-166 | On a well-formed table, with the first call made no earlier than any row was created, retrying any request at any later time writes nothing and gives the same reply, in both merge modes. |
| `Idempotence.SingleRowView` | src/controllers/identifyController.ts:139-153 | The view of a one-row cluster is that row's id, its truthy email and phone, and no secondaries. |
| `Idempotence.AnchorsAfter` | src/controllers/identifyController.ts:50-55 | After the match branch, the only primary that a matched row can lead to is the survivor. |
| `Idempotence.SecondCallIdle` | src/controllers/identifyController.ts:83-127 | When a cluster carries the request and every matched row leads only to its primary, the call writes nothing and replies with that cluster's view. |

## Left out

- The Express request and response become a request pair and a `Reply` value (400, 500 or a view). The JSON key spelling `primaryContatctId` is the view's `primaryContactId` field.
- Non-string JSON values for `email` or `phoneNumber` are not modelled; both are optional strings.
- The Prisma client and the database are replaced by a sequence of rows. SQL, indexes and the `as any` cast are not modelled.
- Concurrency and transactions are not modelled. The model is one call on one table.
- `Date` is replaced by `now`, a parameter giving the creation time of any row the call inserts. Creation order is table order.
- `console.error` is not modelled. A thrown `reduce` or a failed `find` becomes a 500 reply.
- `Contacts.FreshId`: the database's autoincrement sequence is modelled as one more than the largest id in the table. Its contract states only that the new id is unused.
- `Identify.SecondaryIds`: the contract states which ids are listed, not the order they are listed in (table order).
- Rows with equal `createdAt`: the database returns them in an unspecified order, so in the code the survivor among equally old primaries and the order of the listed values are not fixed. The model breaks such ties by table order (`Select`, `OldestIndex`).
- A Prisma update of a missing id (error P2025) is not modelled. The demoted ids come from rows just read, so it cannot occur in a single call.

## Findings

| source | as written | input that shows it | evidently intended | confidence | as-written member | corrected member |
|---|---|---|---|---|---|---|
| src/controllers/identifyController.ts:85-93 | Demotion updates only the other primaries. Rows that linked to a demoted primary keep linking to it, though it is now a secondary. A later request matching only such a row expands to a set with no primary, `reduce` throws, and the reply is 500. The merging request's own reply already misses such rows: it lists only the survivor's direct cluster. | Rows 1 (`a`, primary), 2 (phone `ph`, primary) and 3 (`b`, `ph`, secondary of 2), created at 1, 2, 3. Request (`a`, `ph`) at 4 replies with primary 1, emails [`a`], phones [`ph`] and secondaries [2], leaving out row 3. Then request (`b`, none) gets a 500. | Secondaries of a demoted primary are pointed at the survivor. Every link then names a primary, and the second request gets the view of cluster 1. | high; not executed | `Reparenting.AsWrittenFailsAfterMerge` | `Reparenting.ReparentingKeepsStar` |
