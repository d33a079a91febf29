# Transparent ordering: fairness count and network configuration, in Dafny

This project models the two pieces of deterministic logic in the
transparent-ordering repository.

- **The relative-order pair counter** (`countRelativeOrderPairs`). It reads
  a log of ordered rounds. For the two competing instance pairs {1, 3} and
  {2, 4}, it counts how often each member of a pair came first in a round.
  This is the fairness measurement of the ordering output.
- **The per-node configuration derivation** of the `/create-network`
  provisioning handler:
  - the request defaults;
  - the substitution of each node's address for `<HOST>` in the static-node
    list;
  - the geth node-type flag (`censor` with its comma-joined targets,
    `displace`, or none);
  - the HTTP port `8545 + i` and the address `172.16.239.(10 + i)`;
  - one docker-compose service `node<i>` per node.

Files:

- `relative_order.dfy` (module `RelativeOrder`): the log as values of JSON
  shape, and the counting loop `CountRelativeOrderPairs`. The loop runs over
  an `array<Entry>` with no `modifies` clause, so it cannot change the log. It
  is proved equal to the recursive fold `Tally`. `Tally` is then pinned down
  by lemmas:
  - It fails with the TypeError of the first entry that throws (a `null`
    entry, or a `null` item, whose property read throws). It fails in no
    other case.
  - Otherwise each counter equals an independent count of the rounds that
    decide the pair that way.
- `js_text.dfy` (module `JsText`): the JavaScript string operations the
  handler uses. Each has a partner:
  - number-to-text in a template literal, with a decimal parser that undoes
    it;
  - `join(',')`, with a splitter that undoes it;
  - `replace(/<HOST>/g, ip)`, with lemmas that say which characters it
    touches.
- `network.dfy` (module `Network`): the handler's pure core, `CreateNetwork`,
  and its node loop, `BuildNodes`. `BuildNodes` fills the compose services
  map and the list of start-script flags, and computes each flag by
  reassigning a local variable as the handler does. The two exceptions the
  handler's catch block can meet in this code are modelled as outcomes:
  - the RangeError of `Array(n)` when `nodeTypes` is missing and n is
    negative or at least 2^32;
  - the TypeError of `.join` at the first censor node whose
    `censorTargets[i]` is truthy but not an array.

The code's comment at scripts/countInstances.js:20 says "Ensure both are
present". The code only checks that the filtered list has two items. So a
round with instance 1 twice and no instance 3 counts as "1 before 3". The
model follows the code, and `DuplicateFirstMemberCountsAsFirstBefore` states
that case.

The censor flag joins the targets with `,` and escapes nothing
(src/index.js:124). So an empty target disappears, and a target containing a
comma reaches geth as two targets. `CensorFlagMergesTargets` states both
cases. The round-trip lemmas therefore assume non-empty, comma-free targets.

When `nodeTypes` is given, the handler puts no bound on the node count, and
neither does the model. For node indices from 246 up, the last address field
`10 + i` goes past 255.

## Model

| member | source | states |
|---|---|---|
| `RelativeOrder.CountRelativeOrderPairs` | scripts/countInstances.js:4-40 | The loop's result is the in-order fold `Tally` of the log: a skipped entry moves nothing, each pair moves at most one counter per entry, and a `null` entry or item ends the call with a TypeError at that entry. The log is only read. |
| `RelativeOrder.Table` | scripts/countInstances.js:5-8 | `Table` renders four counters as the nested object the function returns: exactly the keys `1_vs_3` and `2_vs_4`, holding exactly `1_before_3`/`3_before_1` and `2_before_4`/`4_before_2`. |
| `RelativeOrder.EmptyLogGivesZeroTable` | scripts/countInstances.js:5-8 | All four counters start at 0. |
| `RelativeOrder.PairFilterKeepsExactlyPairItems` | scripts/countInstances.js:19-20 | Every item whose `instanceID` is one of the pair is kept, nothing else is, and the filtered list has one element per array position holding a pair item. So `length === 2` means exactly two pair items are present. |
| `RelativeOrder.PairFilterConcat` | scripts/countInstances.js:19 | Filtering a concatenation gives the concatenation of the filtered parts, so the filter keeps array order. |
| `RelativeOrder.FilterHeadIsFirstMatch` | scripts/countInstances.js:19-21 | The first element of the filtered list is the first item of the pair in array order. |
| `RelativeOrder.TallyFailsAtFirstThrow` | scripts/countInstances.js:11-19 | The call fails exactly when some entry is `null` or holds a `null` item, and then at the first such entry. |
| `RelativeOrder.TallyErrorPersists` | scripts/countInstances.js:11-37 | Once an entry has thrown, later entries do not change the outcome. |
| `RelativeOrder.TallyCountsVerdicts` | scripts/countInstances.js:11-37 | On a log where nothing throws, each counter is the number of rounds whose verdict on its pair is that counter's order. |
| `RelativeOrder.PairTotalsCountPairedRounds` | scripts/countInstances.js:18-36 | `1_before_3 + 3_before_1` is the number of rounds with an `instances` array holding exactly two items with ID 1 or 3, and the same holds for {2, 4}. So neither sum exceeds the number of rounds. |
| `RelativeOrder.StepRule` | scripts/countInstances.js:19-35 | Per entry, a pair's total grows by 1 exactly when exactly two items of the pair are present. `1_before_3` (or `2_before_4`) grows exactly when the first of them has ID 1 (or 2). Otherwise the other counter grows. |
| `RelativeOrder.SkippedEntryChangesNothing` | scripts/countInstances.js:13-16 | Inserting an entry without an `instances` array anywhere in the log changes no counter. |
| `RelativeOrder.ItemOutsidePairKeepsVerdict` | scripts/countInstances.js:19-29 | Inserting a non-null item whose ID is not in the pair leaves that pair's filtered list and verdict unchanged. So items of the other pair, or with other IDs, never affect it. |
| `RelativeOrder.TwoFirstMemberItemsCountAsFirstWins` | scripts/countInstances.js:19-25 | Any round whose pair items are exactly two items with the pair's first ID gets the first-member verdict, although the second member is absent. |
| `RelativeOrder.DuplicateFirstMemberCountsAsFirstBefore` | scripts/countInstances.js:20-22 | A round with two items of instance 1 and none of 3 counts as "1 before 3". |
| `JsText.Decimal` | src/index.js:57 | A number renders as a non-empty string of digits. |
| `JsText.DecimalHasNoLeadingZero` | src/index.js:57 | The rendering is canonical: 0 renders as `0`, and any other number starts with a non-zero digit. |
| `JsText.ParseDecimalOfDecimal` | src/index.js:57 | Reading the rendered digits back gives the number. |
| `JsText.DecimalInjective` | src/index.js:158 | Different numbers render differently. |
| `JsText.SplitJoin` | src/index.js:124 | For a non-empty list of comma-free strings, splitting `join(',')` at the commas gives back the strings, in order. |
| `JsText.ReplaceHostWithoutPlaceholder` | src/index.js:58 | Text without `<HOST>` is left unchanged. |
| `JsText.ReplaceHostAtFirstPlaceholder` | src/index.js:58 | The text before the first `<HOST>` is copied, that `<HOST>` becomes the address, and the rest is processed the same way. |
| `JsText.ReplaceHostLeavesNoPlaceholder` | src/index.js:58 | After substituting a dotted numeric address, no `<HOST>` is left. |
| `Network.BuildNodes` | src/index.js:87-174 | The loop ends with a TypeError exactly when some node is a censor node whose `censorTargets[i]` is truthy but not an array, and then at the first such node. Otherwise, for `count` nodes (none when negative), the services map has exactly the keys `node0` .. `node(count-1)`, with node i's service at `node<i>`. One flag per node is produced, in order, each the node-type flag of node i. |
| `Network.CreateNetwork` | src/index.js:19-213 | The handler fails with a RangeError exactly when `nodeTypes` is missing and the node count is negative or at least 2^32. Otherwise it fails with a TypeError exactly when the node loop does, at the same node. On success it applies the defaults and substitutes the static-node addresses. It builds the compose document (version `3`, network `quorum_network`, bridge driver, subnet `172.16.239.0/24`) with the loop's services and flags. |
| `Network.DefaultRequestGivesThreeNormalNodes` | src/index.js:19-20 | A missing (or 0) `nodes` with no `nodeTypes` gives node types `normal` ×3, so exactly `node0`..`node2` and three empty flags. |
| `Network.NodeTypeFlagEncodesRole` | src/index.js:119-127 | Building the flag throws exactly for a censor node whose `censorTargets[i]` is truthy but not an array. Otherwise a censor node's flag parses back to its configured targets, in order, when they are non-empty and comma-free, or to none when the entry is falsy. A `displace` node's flag is exactly `--nodetype displace`. Any other or missing type gets the empty flag. A non-censor node gets no targets. |
| `Network.CensorFlagRoundTrip` | src/index.js:123-124 | For non-empty, comma-free targets t1..tn, `--nodetype censor --censored "[t1,...,tn]"` parses back to exactly t1..tn. |
| `Network.CensorFlagMergesTargets` | src/index.js:124 | The flag loses information outside that case: targets `[""]` give the same flag as `[]`, and `["a,b"]` the same flag as `["a", "b"]`, which reads back as two targets. |
| `Network.ServiceNamesDistinct` | src/index.js:158 | Different nodes get different service keys. |
| `Network.NodeAddressing` | src/index.js:116-170 | Node i's compose address is `172.16.239.` followed by a field that reads back as 10 + i. Its third port mapping ends in `:8545`, and its host part reads back as 8545 + i. |
| `Network.StaticNodesUseServiceAddresses` | src/index.js:56-60 | Static-node entry i gets compose service i's address at each `<HOST>`. The text around the placeholders is kept, an entry without one is unchanged, and no `<HOST>` remains. |
| `Network.ServicesBuiltExtend` | src/index.js:158-174 | Adding node i's service to those of nodes 0..i-1 overwrites none of them, and gives i + 1 services. |

## Left out

- The interaction-ordering protocol is not part of this model: domain partitioning, merge and conflict detection, bias, release, and the epoch cycle. It lives in on-chain contracts whose source is not among the modelled files. test/OrderingContractTest.js and test/ProcessContractTest.js are commented out and only call those contracts.
- scripts/countInstances.js:43-47 (reading the JSON log from disk, printing the result) and the warning printed for a skipped entry (line 14): I/O.
- A log that is not an array at all, where `forEach` itself throws. The model takes the log as an array.
- `instanceID` values that are not integers are all represented by one "other" value. None of them is strictly equal to 1, 2, 3 or 4.
- All file-system, `execSync`, genesis-tool, Docker and Express work in src/index.js:
  - directory setup and the genesis tool (lines 22-54);
  - writing static-nodes.json (62);
  - per-node directories and key copying (88-112);
  - writing docker-compose.yml (215-216);
  - the HTTP response, and the 500 reply for any exception (221-225);
  - `/start-network`, `/stop-network` and `app.listen`.

  The static-node list the genesis tool writes and the network directory come in as parameters.
- The start-node.sh text (src/index.js:129-155) apart from the node-type flag it embeds: it is a fixed template written to disk.
- `nodes` values that are strings or fractions. The count is an integer, and `nodes` is either given or missing/falsy.
- Network.CreateNetwork: a `nodeTypes` that is truthy but not an array of strings is not modelled; the model takes an array of strings. Such a value never throws at `nodeTypes[i]`: an object with index keys gives the same lookups as an array, and a non-string element equals neither `censor` nor `displace`.
- Network.CreateNetwork: censor-target arrays whose elements are not strings are not modelled (`join` would render them as text); the elements are taken as strings.
- `path.join` normalisation: the node data path is the network directory, `/Node-<i>`, and `/data` joined by `/`. This assumes a directory without a trailing slash.
- `$`-patterns in a replacement string: the substituted addresses contain none.
- index.js (an older near-duplicate of the handler), scripts/start-process.js (sends transfers over the network, concurrently), scripts/helper.js (reads keys from disk) and hardhat.config.js (tool configuration).
