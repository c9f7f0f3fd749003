# conminer, verified

conminer turns the serial consoles of a board lab into lines, then into log templates, and
surrounds that with a few small protocols. This project models those parts in Dafny and proves
what they promise over every input, every run and every interleaving.

- `LineSplit`, `LineSplitTheorems`, `LineSplitReference`: the byte-to-line splitter. The class is
  the machine the program runs; the theorems are byte exactness, independence of chunking,
  equality with a machine-free definition of lines, and the exact condition under which probing
  for the line ending equals knowing it.
- `DrainTree`, `Drain`, `DrainTheorems`, `DrainThreshold`, `DrainExamples`: the template miner. A wildcard means
  two lines disagreed; every template is filed once and stays reachable; no widened match
  dissolves one; and the runs on which its search falls short.
- `Hooks`, `HooksTime`: one hook at a time per controller and shared probe answers, as a step
  protocol over arbitrary arrivals and lock orders, with a proof that each safeguard is needed;
  and the same told from the order of the steps alone.
- `Bisect`, `BisectSkips`: the build search against an arbitrary oracle that may skip, and how
  many tests it takes.
- `Telnet`, `TelnetReference`: the streaming filter and the whole-buffer stripper of RFC 854
  framing, on what a sender writes and on any bytes at all.
- `Base64`, `Transfer`, `TransferVerdict`, `TransferText`: section 4 of RFC 4648 and the console
  transfer built on it, down to the characters of its commands and checksum lines.
- `Cksum`, `CksumDivision`, `CksumValues`: the POSIX `cksum`, down to its definition over
  polynomials and the numbers in it.
- `Live`: the reader, the bounded queue and the miner, composing `Telnet` and `LineSplit` into
  an end-to-end statement.
- `Search`, `Tac`, `Discovery`, `Overrides`, `OverridesText`: paging, pin sequences, registry
  reconciliation, and the fail-safe fold over a controller's report, told from its text.
- `Bytes`, `Text`, `Options`, `Powers`, `Sequences`: shared vocabulary.

Code that updates state is a class or a method with loops, each proved to compute a
specification function; the theorems are about those functions, so they hold of the methods.
`dafny verify dfyconfig.toml` checks everything.

## Where the code and its promises part

- Probing for the line ending is meant to give the lines of the ending it settles on. With a
  probe budget at or above the line limit, a forced cut can keep a carriage return as content
  before the probe decides. `AutoKeepsItsPromise` gives the condition as an if-and-only-if.
- The comment at `crates/conminer-core/src/hooks.rs:195` calls clearing the slot a second
  precaution. `ClearNeeded` shows it is the only thing that stops a waiting probe from being
  answered with a reading an actuation has overtaken.
- The first offer of a bisection promises at most `bits(n) + 1` further tests, later ones
  `bits(remaining)`. If builds may go on being skipped, the first promise holds for every oracle
  only up to four builds (`FirstOfferBoundIff`) and a later one only while at most two candidates
  remain (`OfferBoundIff`). Against oracles that answer from there on, `FirstOfferBound` says for
  which `n` the first one is right, six builds being the first that need one more, and
  `BoundAfterSkips` after which skips a later one is.
- A widened search turns down templates that are mostly wildcards, so the line that created such
  a template can be sent away from it. `CreatorRejoins` says exactly when, `CreatorTurnedAway`
  shows a run. And a scan is
  cut at 512 templates: `FittingTemplatesAreCompared` says which are still reached,
  `LastTemplateMissed` shows one that is not.
- Two pin numbers that differ by a multiple of eight drive one line. `ClearKeepsPowerIff` says
  when clearing the straps then moves power.
- `strip_telnet` leaves a subnegotiation at the first IAC SE even when the IAC is the second half
  of a doubled 0xFF. `StripperIsExactIff` says when that shows.

## Model

| member | source | states |
|---|---|---|
| `LineSplit.Clamped` | crates/conminer-core/src/linesplit.rs:142-155 | A line limit below 64 becomes 64 and a probe budget below 1 becomes 1; larger values are kept, and every splitter runs under limits that make progress |
| `LineSplit.LineSplitter.constructor` | crates/conminer-core/src/linesplit.rs:142-155 | A new splitter is empty, under the clamped limits, and probes exactly in `Auto` mode |
| `LineSplit.LineSplitter.PendingBytes` | crates/conminer-core/src/linesplit.rs:180-182 | The count is the number of bytes taken in and not yet part of a line |
| `LineSplit.LineSplitter.Push` | crates/conminer-core/src/linesplit.rs:203-209 | A chunk hands out every line it completed and leaves the state of feeding its bytes one by one; `bytes_in` grows by the chunk |
| `LineSplit.LineSplitter.Flush` | crates/conminer-core/src/linesplit.rs:212-225 | End of stream: the pending carriage return and the open line come out under the terminator the mode calls for, and nothing stays |
| `LineSplit.LineSplitter.Byte` | crates/conminer-core/src/linesplit.rs:231-267 | One byte, with a pending carriage return settled first, moves the machine one step of the specification |
| `LineSplit.LineSplitter.Accept` | crates/conminer-core/src/linesplit.rs:250-266 | A byte that does not complete a CRLF pair: CR waits, LF ends the line, anything else is stored |
| `LineSplit.LineSplitter.Store` | crates/conminer-core/src/linesplit.rs:269-276 | A stored byte cuts the line at the limit and flags the next one as its continuation |
| `LineSplit.LineSplitter.MarkLf` | crates/conminer-core/src/linesplit.rs:278-285 | A line feed ends the probe in favour of LF |
| `LineSplit.LineSplitter.EndProbe` | crates/conminer-core/src/linesplit.rs:287-304 | The probe decides once its budget is spent, for CR if one was seen |
| `LineSplit.LineSplitter.ResplitBufferedCrs` | crates/conminer-core/src/linesplit.rs:309-323 | The buffered bytes are cut after the fact at each carriage return, keeping the continuation flag |
| `LineSplit.LineSplitter.EmitFlagged` | crates/conminer-core/src/linesplit.rs:329-339 | The open line is emitted with its flags and its truncation is remembered for the next |
| `LineSplit.Reassemble` | crates/conminer-core/src/linesplit.rs:352-359 | The loop rebuilds the byte stream of a list of lines |
| `LineSplitTheorems.FeedExact` | crates/conminer-core/src/linesplit.rs:203-339 | At every moment, for every stream, mode and limits: emitted lines plus pending bytes are exactly the bytes fed; no line holds an LF or exceeds the limit; continuation flags mirror truncation |
| `LineSplitTheorems.SplitExact` | crates/conminer-core/src/linesplit.rs:343-359 | Reassembling all the lines of any stream gives the stream back, and all lines are well formed |
| `LineSplitTheorems.OffsetsIncrease` | crates/conminer-core/src/linesplit.rs:91-94 | Every line consumes at least one byte, so stream offsets strictly increase |
| `LineSplitTheorems.FeedAppend` | crates/conminer-core/src/linesplit.rs:203-209 | Feeding two runs of bytes one after the other is feeding their concatenation |
| `LineSplitTheorems.PushAllIsFeed` | crates/conminer-core/src/linesplit.rs:203-209 | Any sequence of `push` calls hands out, in all, the lines of the concatenated chunks and leaves the same state |
| `LineSplitTheorems.ChunkingIsInvisible` | crates/conminer-core/src/linesplit.rs:203-225 | However a stream is cut into chunks, pushing it and flushing gives the lines of the one-shot split |
| `LineSplitTheorems.CrlfIsLf` | crates/conminer-core/src/linesplit.rs:227-267 | Forced CRLF and forced LF give the same lines on every stream |
| `LineSplitTheorems.ProbingTracksLf` | crates/conminer-core/src/linesplit.rs:231-267 | Until it decides, a probing machine holds what a forced LF machine holds |
| `LineSplitTheorems.ProbingTracksCr` | crates/conminer-core/src/linesplit.rs:309-323 | Until it decides, re-splitting the probe buffer late gives what a forced CR machine already has, unless a forced cut kept a CR |
| `LineSplitTheorems.AutoKeepsItsPromise` | crates/conminer-core/src/linesplit.rs:231-323 | For every stream and all limits: probing gives the lines of the ending it is documented to resolve to if and only if no forced cut inside the probe window swallowed a carriage return |
| `LineSplitTheorems.ShortProbeNeverSwallows` | crates/conminer-core/src/linesplit.rs:231-323 | With the probe budget below the line limit, `Auto` equals the forced splitter told the answer in advance, on every stream |
| `LineSplitTheorems.SwallowedExample` | crates/conminer-core/src/linesplit.rs:269-304 | The exception is inhabited: 65 carriage returns under limit 64 and budget 65 |
| `LineSplitReference.EndOf` | crates/conminer-core/src/linesplit.rs:231-267 | The next terminator is the first LF, or first CR where CR ends lines, and nothing before it qualifies |
| `LineSplitReference.PiecesMore` | crates/conminer-core/src/linesplit.rs:269-276 | One more content byte either extends the open piece or completes a full one |
| `LineSplitReference.MachineIsReference` | crates/conminer-core/src/linesplit.rs:203-276 | From the start of any line the byte machine produces exactly the lines a terminator search and fixed-length cutting give |
| `LineSplitReference.SplitIsReference` | crates/conminer-core/src/linesplit.rs:343-350 | In every forced mode the splitter equals that machine-free definition of lines |
| `LineSplitReference.AutoIsReference` | crates/conminer-core/src/linesplit.rs:231-323 | For all limits and streams `Auto` equals it, for the ending it promises, if and only if no forced cut swallowed a carriage return |
| `DrainTree.SubtreeClusters` | crates/conminer-core/src/drain.rs:586-601 | The worklist returns the templates under a node in visiting order, cut at 512 |
| `DrainTree.ScanOrder` | crates/conminer-core/src/drain.rs:586-601 | A scan visits the children of a node from the last in lexicographic order to the first |
| `DrainTree.InsertAt` | crates/conminer-core/src/drain.rs:721-758 | Filing a template changes exactly one address of the tree, by exactly that template |
| `DrainTree.InsertRoutes` | crates/conminer-core/src/drain.rs:721-758 | A line is routed to the template it has just filed |
| `DrainTree.RouteKept` | crates/conminer-core/src/drain.rs:721-758 | No later insertion, overflow included, diverts an existing route |
| `DrainTree.InsertNarrow` | crates/conminer-core/src/drain.rs:739-755 | No node outgrows `max_children`, with one place kept for the wildcard child |
| `DrainTree.RoutedGathers` | crates/conminer-core/src/drain.rs:530-577 | A routed line has its template among the gathered candidates |
| `DrainTree.CoveringIsGatheredIff` | crates/conminer-core/src/drain.rs:530-601 | A template filed at an address that fits the prefix, wildcards included, is gathered if and only if the walk follows its address to the end or passes by a wildcard branch whose first 512 templates include it |
| `DrainTree.SmallBranchesAreWithin` | crates/conminer-core/src/drain.rs:530-601 | While no wildcard branch the walk passes by holds more than 512 templates, every fitting template is within that reach |
| `Drain.SeqDistance` | crates/conminer-core/src/drain.rs:855-872 | The loop counts agreeing literals plus wildcards, and wildcards, over all positions |
| `Drain.Drain.constructor` | crates/conminer-core/src/drain.rs:386-398 | A fresh miner has no templates and hands out ids from 1 |
| `Drain.Drain.AddTokens` | crates/conminer-core/src/drain.rs:457-505 | One line joins the best candidate in place or files a new template: the whole new state and the reported match |
| `Drain.Drain.Generalize` | crates/conminer-core/src/drain.rs:468-480 | The in-place loop turns exactly the disagreeing literals into wildcards and reports whether any changed |
| `Drain.Drain.FindCandidates` | crates/conminer-core/src/drain.rs:530-577 | The walk returns the gathered indices sorted without repeats, and whether it went beyond the leaf |
| `Drain.Drain.FindBest` | crates/conminer-core/src/drain.rs:605-718 | The scan returns the first best eligible candidate, if it passes the threshold |
| `Drain.Ascending` | crates/conminer-core/src/drain.rs:565-576 | Sorting and deduplicating keeps exactly the indices in range, strictly increasing |
| `DrainTheorems.TemplatesAreGeneralisations` | crates/conminer-core/src/drain.rs:457-505 | After any run each template is the least general generalisation of the lines assigned to it, counts them, is head-only iff one was cut, ids are 1..k in creation order, and counts sum to the calls |
| `DrainTheorems.WildcardMeansDisagreement` | crates/conminer-core/src/drain.rs:466-480 | A position no assigned line literally reads `<*>` at is a wildcard iff two assigned lines disagree there |
| `DrainTheorems.TreeInvariant` | crates/conminer-core/src/drain.rs:721-758 | After any run: every template under the root for its length at depth min(depth-2, n), each address holding only its own templates once, nodes within limit, creators still routed |
| `DrainTheorems.FiledExactlyOnce` | crates/conminer-core/src/drain.rs:721-758 | After any run an address holds a template if and only if it is that template's one address |
| `DrainTheorems.CreatorFindsTemplate` | crates/conminer-core/src/drain.rs:530-577 | After any run the line that created a template still has it among its candidates, despite later insertions and overflow |
| `DrainTheorems.NothingOutOfRange` | crates/conminer-core/src/drain.rs:565-576 | After any run the candidates are exactly the gathered indices: none is lost for being out of range |
| `DrainTheorems.FittingTemplatesAreCompared` | crates/conminer-core/src/drain.rs:530-601 | After any run a line is compared with a template of its length filed where its prefix fits if and only if that is within the reach of the walk, scans being cut at 512 |
| `DrainTheorems.NoneMissedBelowTheCap` | crates/conminer-core/src/drain.rs:530-601 | After any run no fitting template is missed while the wildcard branches the walk passes by hold at most 512 templates each |
| `DrainExamples.LastTemplateMissed` | crates/conminer-core/src/drain.rs:586-601 | The cap costs a comparison on real runs: after any 514 distinct one-word lines the first is not compared with the last template, although it fits |
| `DrainTheorems.MatchesIff` | crates/conminer-core/src/drain.rs:605-718 | A line joins a template if and only if some eligible candidate passes the threshold |
| `DrainThreshold.JoinsIffSimilar` | crates/conminer-core/src/drain.rs:605-718 | Counted position by position: a line joins if and only if a candidate of its length reaches the similarity and, off its own route, six tenths, with at most half wildcards and three common literals or a common route |
| `DrainThreshold.SiblingJoinsIff` | crates/conminer-core/src/drain.rs:605-718 | The second of two lines under different routing tokens joins the first if and only if three tokens, six tenths and the similarity all agree |
| `DrainThreshold.SixOfNine` | crates/conminer-core/src/drain.rs:605-718 | Under the usual settings six common tokens of nine join, five do not |
| `DrainThreshold.EarlierAreBeaten` | crates/conminer-core/src/drain.rs:690-718 | Of equally good candidates the first is joined |
| `DrainThreshold.AnswerIsTrue` | crates/conminer-core/src/drain.rs:457-505 | After any run the reported number names the template that took the line; created and generalized are reported if and only if it is new or changed |
| `DrainThreshold.MinesTheHead` | crates/conminer-core/src/drain.rs:458-463 | Mining looks at the head of a line, as long as the limit allows |
| `DrainThreshold.FiledAtDepth` | crates/conminer-core/src/drain.rs:721-758 | After any run a template is filed under its first depth - 2 tokens, or all it has |
| `DrainThreshold.ScanIs` | crates/conminer-core/src/drain.rs:586-601 | A scan returns everything below a node up to the first 512 |
| `DrainTheorems.JoinsTheMostSimilar` | crates/conminer-core/src/drain.rs:605-718 | The template joined is at least as similar as every eligible candidate and, on a tie, at least as general |
| `DrainTheorems.WidenedKeepsLiterals` | crates/conminer-core/src/drain.rs:605-718 | After a widened match at least a tenth of the template, and at least one token, is literal |
| `DrainTheorems.MatchingIsEligibleIff` | crates/conminer-core/src/drain.rs:605-718 | A template that reads the line or a wildcard everywhere is turned down if and only if the search is widened and more than half of it is wildcards |
| `DrainTheorems.MatchingCandidateChangesNothing` | crates/conminer-core/src/drain.rs:457-505 | When such a candidate is not turned down, nothing is created and no token of any template changes |
| `DrainTheorems.NothingChangesIff` | crates/conminer-core/src/drain.rs:457-505 | On any miner, adding a line creates and changes nothing if and only if some candidate matches it everywhere and is not turned down |
| `DrainTheorems.CreatorRejoins` | crates/conminer-core/src/drain.rs:457-505 | After any run, adding the line that created a template again changes nothing if and only if the search is not widened, or at most half of that template is wildcards, or another matching candidate is not turned down |
| `DrainExamples.CreatorTurnedAway` | crates/conminer-core/src/drain.rs:605-718 | That exception is reachable: after any three lines of distinct words, two sharing their routing token, the first files a second template |
| `DrainTheorems.ReAddingIsIdempotent` | crates/conminer-core/src/drain.rs:457-505 | Re-adding a line straight after it created a template creates nothing and changes no token if and only if the second search is not widened or at most half of the line literally reads `<*>` |
| `Hooks.LockKeyIs` | crates/conminer-core/src/hooks.rs:137-142 | A call is locked iff it names a non-empty controller or device; the key is the first such controller, else the first such device |
| `Hooks.NextKeeps` | crates/conminer-core/src/hooks.rs:157-207 | Every step of every caller keeps the protocol invariant |
| `Hooks.EveryRunIsSafe` | crates/conminer-core/src/hooks.rs:157-207 | In every reachable state at most one hook runs per key, and every probe's answer is to its own question, finished no earlier than it arrived, with no actuation since the reading began |
| `Hooks.QuestionTestNeeded` | crates/conminer-core/src/hooks.rs:157-182 | Without the question test an unsafe state is reachable |
| `Hooks.ArrivalTestNeeded` | crates/conminer-core/src/hooks.rs:157-182 | Without the arrival test an unsafe state is reachable |
| `Hooks.ClearNeeded` | crates/conminer-core/src/hooks.rs:185-207 | Without the slot clear an actuation queued ahead of a waiting probe makes an unsafe state reachable |
| `Hooks.ExactlyTheseRules` | crates/conminer-core/src/hooks.rs:157-207 | All reachable states are safe if and only if all three safeguards are in force |
| `Hooks.SlotIsLastStored` | crates/conminer-core/src/hooks.rs:157-207 | In every run the slot is the last stored answer not overtaken by an actuation, as read off the history alone |
| `Hooks.WaitersShareOneRun` | crates/conminer-core/src/hooks.rs:157-182 | Any number of waiting probes the stored answer serves all return it, and no hook starts |
| `Hooks.ConcurrentProbesShareOneRun` | crates/conminer-core/src/hooks.rs:157-182 | When a probe's hook finishes, the probes waiting with the same question, let in one after the other in any order, all return that one reading, and no further hook begins |
| `Hooks.SharedUntilOvertaken` | crates/conminer-core/src/hooks.rs:157-207 | The same over any further steps, other controllers and failures included, as long as the lock is not given to a call of this controller the answer does not serve: no hook of it begins, and each waiter waits, gave up, or has the reading, and has it once let in |
| `HooksTime.NowIsTicks` | crates/conminer-core/src/hooks.rs:157-182 | The clock of a run counts its ticks and nothing else |
| `HooksTime.EverythingHasItsTime` | crates/conminer-core/src/hooks.rs:157-207 | In any run every caller is recorded with what it asked and the tick it arrived in, every stored answer with the tick its hook finished in |
| `HooksTime.ReturnedReadingIsFresh` | crates/conminer-core/src/hooks.rs:157-182 | Told from the steps alone: whatever a caller returns is the output of one finished hook for its own question, finished in no earlier tick than the caller arrived in |
| `HooksTime.NeverToldOfThePast` | crates/conminer-core/src/hooks.rs:157-182 | Told from the steps alone: a caller arriving at least one tick after a hook finished never returns that hook's reading, whatever else happens |
| `HooksTime.HeldIffRunning` | crates/conminer-core/src/hooks.rs:157-207 | In any run a controller is locked if and only if one of its hooks is in flight, so every end of a hook gives the lock back |
| `HooksTime.LetInGetsOn` | crates/conminer-core/src/hooks.rs:157-207 | Let in, a caller returns the stored answer if and only if it is a probe with the same question that arrived no later than that was finished; its hook begins otherwise |
| `Bisect.BoundsExtreme` | crates/conminer-core/src/bisect.rs:95-109 | No good verdict lies above the good bound and no bad one below the bad bound |
| `Bisect.OpenMember` | crates/conminer-core/src/bisect.rs:169-171 | The open candidates are exactly the untested ones strictly between the bounds |
| `Bisect.Nearest` | crates/conminer-core/src/bisect.rs:195-201 | The candidate offered is open and none is closer to the midpoint |
| `Bisect.NearestIsFirst` | crates/conminer-core/src/bisect.rs:195-201 | On a tie the earlier candidate is taken: all before it are strictly farther off |
| `Bisect.NextStep` | crates/conminer-core/src/bisect.rs:129-208 | All four outcomes: a culprit is named only directly behind the last good build or under contradictory verdicts; giving up names every build between the bounds, all skipped; an offer is untested and lies between the bounds or at a missing end; a missing end is reported only once tested in vain |
| `Bisect.ComputeBits` | crates/conminer-core/src/bisect.rs:230-238 | The loop counts the halvings down to one: the binary logarithm rounded down |
| `Bisect.SearchTerminates` | crates/conminer-core/src/bisect.rs:129-208 | From any recorded state and any oracle the search re-offers nothing and asks at most once per untested candidate |
| `Bisect.AtMostEveryCandidateOnce` | crates/conminer-core/src/bisect.rs:129-208 | A fresh search asks at most n times, each index once, whatever the oracle says |
| `Bisect.NamesTheCulprit` | crates/conminer-core/src/bisect.rs:129-208 | For a monotone oracle with any interior skips the search ends, without contradiction, naming exactly the first bad build iff it and its predecessor can be tested, and inconclusive otherwise |
| `Bisect.InconclusiveBrackets` | crates/conminer-core/src/bisect.rs:172-193 | An inconclusive answer brackets the first bad build with only skipped builds strictly between, all of them named |
| `Bisect.HalvingBound` | crates/conminer-core/src/bisect.rs:169-208 | In the halving phase, against an oracle that answers, the tests after an offer never exceed the bound attached to it |
| `BisectSkips.AtMostLongest` | crates/conminer-core/src/bisect.rs:169-208 | With any builds already skipped, no oracle that answers on the rest takes more tests than the depth of the search tree on the open positions |
| `BisectSkips.LongestIsTaken` | crates/conminer-core/src/bisect.rs:169-208 | A plain first-bad-build oracle takes exactly that many |
| `BisectSkips.BoundAfterSkips` | crates/conminer-core/src/bisect.rs:169-208 | After skips the bound attached to an offer holds for every oracle that answers on the rest if and only if that depth is at most bits(remaining) + 1 |
| `BisectSkips.AtMostFree` | crates/conminer-core/src/bisect.rs:169-208 | No oracle, skipping or not, takes more tests than there are open candidates |
| `BisectSkips.SkippingTakesAll` | crates/conminer-core/src/bisect.rs:169-208 | An oracle that skips them all takes exactly that many |
| `BisectSkips.OfferBoundIff` | crates/conminer-core/src/bisect.rs:169-208 | In every state of every search, the bound attached to an offer between the bounds holds for every oracle, skipping ones included, if and only if at most two candidates remain |
| `BisectSkips.FirstOfferBoundIff` | crates/conminer-core/src/bisect.rs:135-155 | The bound attached to the first offer holds for every oracle, skipping ones included, if and only if there are at most four builds |
| `BisectSkips.SecondOfferBoundIff` | crates/conminer-core/src/bisect.rs:135-155 | Attached to the other end, once the first build is good, it does up to five builds |
| `BisectSkips.OnlyEndsTakesAll` | crates/conminer-core/src/bisect.rs:129-208 | A search in which only the ends can be tested tests every build |
| `BisectSkips.FiveBuildsOfSkips` | crates/conminer-core/src/bisect.rs:135-155 | Five builds of which only the ends can be tested: three further tests promised, four needed |
| `BisectSkips.ThreeOpenOfSkips` | crates/conminer-core/src/bisect.rs:169-208 | Three builds open and nothing skipped yet: one further test promised, two needed |
| `BisectSkips.LongestWithoutSkips` | crates/conminer-core/src/bisect.rs:169-208 | Where nothing was skipped the depth is exactly what the bound says |
| `BisectSkips.SkipCostsOneMore` | crates/conminer-core/src/bisect.rs:169-208 | Six builds with the third skipped: one further test promised, two needed |
| `Bisect.HalvingWorstCase` | crates/conminer-core/src/bisect.rs:169-208 | When every answer is good that bound is reached exactly |
| `Bisect.FirstOfferBound` | crates/conminer-core/src/bisect.rs:135-155 | The bound attached to the first offer holds for every oracle that answers if and only if n < 2^bits(n) + 2 |
| `Bisect.FirstOfferExceeded` | crates/conminer-core/src/bisect.rs:135-155 | Otherwise one late failure takes exactly one test more than promised |
| `Bisect.SixBuildsTakeOneMore` | crates/conminer-core/src/bisect.rs:135-155 | Six builds: three further tests promised, four needed |
| `Telnet.TelnetFilter.constructor` | crates/conminer-core/src/runner.rs:589-607 | A new filter is outside any sequence |
| `Telnet.TelnetFilter.Push` | crates/conminer-core/src/runner.rs:615-657 | A chunk moves the five-state machine over its bytes and returns what reached the console |
| `Telnet.StripTelnet` | crates/conminer-core/src/runner.rs:537-571 | The index walk returns the stripped buffer |
| `Telnet.SkipSubnegotiation` | crates/conminer-core/src/runner.rs:556-562 | The inner scan lands just behind the next IAC SE, or past the end |
| `Telnet.RunWire` | crates/conminer-core/src/runner.rs:609-664 | On every encoded stream the filter yields exactly the data bytes and ends outside any sequence |
| `Telnet.FilterIsExact` | crates/conminer-core/src/runner.rs:609-664 | So it does however the stream is cut into chunks |
| `TelnetReference.FilterIsReference` | crates/conminer-core/src/runner.rs:609-664 | On every byte string, encoded by anyone or not, the filter hands on what reading the buffer from the left keeps |
| `TelnetReference.ChunkedFilterIsReference` | crates/conminer-core/src/runner.rs:609-664 | And so it does in any chunks |
| `TelnetReference.StripperIsReference` | crates/conminer-core/src/runner.rs:537-571 | On every byte string that opens no subnegotiation the stripper keeps the same, truncated sequences included |
| `Telnet.StrippedWire` | crates/conminer-core/src/runner.rs:537-571 | On every encoded stream the stripper yields the data bytes plus the tail of each payload it left early |
| `Telnet.StripperIsExactIff` | crates/conminer-core/src/runner.rs:537-571 | The stripper agrees with the filter if and only if no subnegotiation payload shows IAC SE before its last two bytes |
| `Telnet.StripperLeaks` | crates/conminer-core/src/runner.rs:556-562 | A concrete payload byte that reaches the console |
| `Telnet.StripperIsExactWithoutIac` | crates/conminer-core/src/runner.rs:537-571 | Payloads free of 0xFF are always stripped whole |
| `Cksum.FeedInto` | crates/conminer-core/src/transfer.rs:278-289 | The eight-turn loop feeds one byte into the register |
| `Cksum.ComputeCksum` | crates/conminer-core/src/transfer.rs:276-299 | The two loops, over the data and over the length bytes, compute the checksum |
| `Cksum.TurnLinear` | crates/conminer-core/src/transfer.rs:282-288 | One turn of the register is linear over xor |
| `Cksum.TurnInjective` | crates/conminer-core/src/transfer.rs:282-288 | One turn of the register loses nothing |
| `Cksum.ChecksumIsRemainder` | crates/conminer-core/src/transfer.rs:276-299 | The byte-wise register with its top-end feed is bit-wise long division of message, length and 32 zero bits |
| `CksumDivision.RegisterDivides` | crates/conminer-core/src/transfer.rs:276-299 | Long division in the register yields a quotient and remainder: m = q times the generator + r, as polynomials modulo two |
| `CksumDivision.DivisionUnique` | crates/conminer-core/src/transfer.rs:276-299 | Quotient and remainder of degree below 32 are unique |
| `CksumDivision.ChecksumIsTheRemainder` | crates/conminer-core/src/transfer.rs:276-299 | The POSIX definition: the checksum is the complement of r if and only if message and length times x^32 is a multiple of the generator plus r |
| `CksumValues.PolyIs` | crates/conminer-core/src/transfer.rs:278-278 | The generator is worth 0x04c11db7 |
| `CksumValues.BitsAreWorth` | crates/conminer-core/src/transfer.rs:280-281 | The bits of a byte spell the byte, most significant first |
| `CksumValues.LengthIsSpelled` | crates/conminer-core/src/transfer.rs:293-297 | The length field spells the length, low byte first, without a closing zero byte |
| `CksumValues.ChecksumOfZeroByte` | crates/conminer-core/src/transfer.rs:276-299 | The checksum of one zero byte is 4215202376 |
| `Cksum.BurstIsDetected` | crates/conminer-core/src/transfer.rs:276-299 | Messages of one length that differ only inside 32 consecutive bits never share a checksum |
| `Cksum.FourByteWindowIsDetected` | crates/conminer-core/src/transfer.rs:276-299 | Messages of one length that differ only inside four consecutive bytes never share a checksum |
| `Base64.Encode` | crates/conminer-core/src/transfer.rs:213-236 | The loop over three-byte groups produces the padded encoding |
| `Base64.Decode` | crates/conminer-core/src/transfer.rs:238-267 | The accumulator loop produces the decoding, or the error for a foreign character |
| `Base64.LowTwelve` | crates/conminer-core/src/transfer.rs:240-264 | The 32-bit accumulator overflows, yet its low twelve bits are always the last two symbols |
| `Base64.RoundTrip` | crates/conminer-core/src/transfer.rs:213-267 | Decoding an encoding gives the bytes back, for every byte string |
| `Base64.DecodeFailsIff` | crates/conminer-core/src/transfer.rs:238-267 | Decoding fails if and only if something before the first pad is outside the alphabet |
| `Base64.SymbolIs` | crates/conminer-core/src/transfer.rs:211-211 | The symbols are the 64 of the table, in its order |
| `Base64.ValueIff` | crates/conminer-core/src/transfer.rs:246-252 | The decoder takes exactly those symbols, each at its place in the table |
| `Base64.DecodeFailsExactly` | crates/conminer-core/src/transfer.rs:238-267 | Decoding fails if and only if a byte before the first pad is none of the 64 symbols |
| `Base64.RfcFooba` | crates/conminer-core/src/transfer.rs:213-236 | A vector of section 10 of RFC 4648, with padding |
| `Base64.RfcFoobar` | crates/conminer-core/src/transfer.rs:213-236 | A vector of section 10 of RFC 4648, without padding |
| `Base64.PlanChunks` | crates/conminer-core/src/transfer.rs:98-107 | The chunk loop of a push plan cuts the encoding into pieces of 512 |
| `Base64.PayloadsDecode` | crates/conminer-core/src/transfer.rs:98-107 | The payloads of a push end to end decode to the file, and none is empty or over 512 bytes |
| `Transfer.PlanPush` | crates/conminer-core/src/transfer.rs:75-122 | The plan or the refusal: size limit first, then the path, then scratch file, payloads in order, decoding, and the line that prints the digest |
| `Transfer.CommandsStayQuoted` | crates/conminer-core/src/transfer.rs:75-122 | Every command of an accepted plan is one shell line with no quote but its own: neither path nor payload leaves its quotes |
| `Transfer.PushDelivers` | crates/conminer-core/src/transfer.rs:75-122 | A push is refused iff over the limit or unquotable; otherwise running its commands on any files leaves the file, no scratch file, and every other file as it was |
| `Base64.WrappedDecodes` | crates/conminer-core/src/transfer.rs:157-159 | Whitespace put anywhere into an encoding and filtered out again leaves the decoding unchanged |
| `Transfer.PullDelivers` | crates/conminer-core/src/transfer.rs:157-175 | Whatever whitespace the target puts into its output, the pull returns the file if the target reports its digest and a mismatch if not |
| `Transfer.PullIsChecked` | crates/conminer-core/src/transfer.rs:157-175 | A pull fails on the text iff something before the first pad is foreign; what it returns was checked against the target's digest |
| `Transfer.MangledPullFails` | crates/conminer-core/src/transfer.rs:157-175 | Whatever text arrives, if the target's output bears out one file's digest only, that file is returned or none |
| `Transfer.PushThenPull` | crates/conminer-core/src/transfer.rs:75-175 | A file pushed, verified and pulled back under the target's own digest is the file |
| `TransferVerdict.PushAcceptedIff` | crates/conminer-core/src/transfer.rs:128-140 | A push counts if and only if the characters of the output, ASCII case aside, show the digest of what was sent |
| `TransferVerdict.PullAcceptedIff` | crates/conminer-core/src/transfer.rs:157-175 | A pull that decodes is returned if and only if the output shows its digest, and is a mismatch otherwise |
| `TransferVerdict.DigestAmidText` | crates/conminer-core/src/transfer.rs:128-140 | Whatever text surrounds the digest, it is shown |
| `TransferVerdict.ShownIsAllThere` | crates/conminer-core/src/transfer.rs:128-140 | An output that shows the digest is no shorter and has each of its characters |
| `TransferText.LinesReadBack` | crates/conminer-core/src/transfer.rs:98-110 | Every shell line of an accepted plan, cut at its quotes and read back, is the file operation planned |
| `TransferText.VerifyReadsBack` | crates/conminer-core/src/transfer.rs:113-121 | The verify line asks either digest tool about the file |
| `Live.Capture.constructor` | crates/conminer-core/src/live.rs:345-389 | Reader, queue and miner start empty, with a fresh filter and splitter |
| `Live.Capture.AbsorbRaw` | crates/conminer-core/src/live.rs:773-913 | A read strips telnet, drops a failure banner, and queues the rest or counts it as lost |
| `Live.Capture.MineNext` | crates/conminer-core/src/live.rs:130-172 | The miner takes one message and stores the lines it completes |
| `Live.Capture.CountBytes` | crates/conminer-core/src/pipeline.rs:427-452 | The loop counts the bytes a batch of lines consumed, terminators included |
| `Live.NextKeeps` | crates/conminer-core/src/live.rs:130-172 | Every step of reader and miner keeps both halves of the invariant |
| `Live.NothingIsLostSilently` | crates/conminer-core/src/live.rs:773-913 | Over every interleaving: filtered bytes = lines + pending + queued + dropped + refused; chunks are mined in arrival order; with no drop the stored lines, pending bytes and queue reassemble to what was accepted; the queue stays within 4096 |
| `Live.LastStepLoses` | crates/conminer-core/src/live.rs:773-913 | What one step drops, refuses and queues: a read of console bytes is dropped whole exactly at 4096 queued messages, refused whole exactly on a failure banner, and queued otherwise; a tick is queued while there is room |
| `Live.LostOnlyWhenFull` | crates/conminer-core/src/live.rs:773-913 | In any run bytes were dropped if and only if some read met a full queue, and refused if and only if some read was a failure banner |
| `Live.NothingDroppedWithRoom` | crates/conminer-core/src/live.rs:104-116 | A run whose queue stays below 4096 drops nothing |
| `Live.Capture.Redial` | crates/conminer-core/src/live.rs:559-566 | A fresh connection gets a fresh filter |
| `Live.Capture.SendTick` | crates/conminer-core/src/live.rs:724-726 | The tick message is queued if there is room |
| `Live.Capture.Finish` | crates/conminer-core/src/pipeline.rs:401-416 | When the reader is gone the open line becomes the last one, uncounted, and the splitter is left empty; nothing else changes |
| `Telnet.RunUnfinished` | crates/conminer-core/src/runner.rs:609-664 | Nothing of an item cut off anywhere reaches the console |
| `Live.EndToEnd` | crates/conminer-core/src/live.rs:130-172 | Once the queue is drained with nothing dropped or refused, stored lines plus the flush are the one-shot split of what the board sent, across any reads, any interleaving, and connections that dropped anywhere inside a telnet sequence |
| `Live.ResetNeeded` | crates/conminer-core/src/live.rs:559-566 | If a new connection inherited the old filter, then under every setup some run would lose a byte of it |
| `Search.DegradedScan` | crates/conminer-core/src/search.rs:443-529 | A page is the first hits of the unbounded scan and, if one more exists, its offset; rows and bytes are counted up to and including the hit that did not fit |
| `Search.ScanIs` | crates/conminer-core/src/search.rs:532-551 | The rows a scan reads are exactly those of the session and boot asked for, from the offset on |
| `Search.MatchingIs` | crates/conminer-core/src/search.rs:496-518 | The hits among them are exactly those that match |
| `Search.PagesAreTheWholeScan` | crates/conminer-core/src/search.rs:443-551 | With any page size of at least 1 following `next_offset` takes at most one page per hit and one more, and yields the unbounded scan: in order, each hit once |
| `Search.ZeroNeverAdvances` | crates/conminer-core/src/search.rs:443-529 | With page size 0 and any hit, following `next_offset` stays where it is |
| `Search.SplitRowsIncrease` | crates/conminer-core/src/store/device.rs:3780-3830 | The rows of any split stream have strictly increasing offsets, which is what paging needs |
| `Tac.Controller.constructor` | crates/conminer-core/src/tac.rs:603-617 | A controller starts from the levels its ports read |
| `Tac.Controller.SetPin` | crates/conminer-core/src/tac.rs:742-762 | Setting a pin changes its one bit of the shadow register, pin numbers of eight or more wrapping, or fails and changes nothing |
| `Tac.Controller.RunSequence` | crates/conminer-core/src/tac.rs:531-539 | A run applies its steps in order and stops at the first pin it cannot drive |
| `Tac.PinAfter` | crates/conminer-core/src/tac.rs:531-539 | After any run a pin reads the last value set, else what it read before |
| `Tac.BitUntouched` | crates/conminer-core/src/tac.rs:742-762 | A bit no step names keeps its level through any run |
| `Tac.SequenceIsKnown` | crates/conminer-core/src/tac.rs:394-495 | Every sequence an action yields drives only power and straps, and only pins the board has |
| `Tac.ClearRecovers` | crates/conminer-core/src/tac.rs:394-495 | Any action cut off after any prefix, then Clear, on pins that drive distinct lines: every strap low, power as the prefix left it, every unrelated bit as at the start |
| `Tac.ClearLowers` | crates/conminer-core/src/tac.rs:394-495 | Without that, too: Clear lowers exactly the lines its straps drive |
| `Tac.ClearKeepsPowerIff` | crates/conminer-core/src/tac.rs:394-495 | Clear never moves power, whatever the levels, if and only if no strap shares the power line |
| `Tac.SharedPowerLine` | crates/conminer-core/src/tac.rs:56-61 | A board on which one does, and Clear switches power on |
| `Tac.CompletedActionReleases` | crates/conminer-core/src/tac.rs:394-495 | An uninterrupted cycle or boot mode ends with power on and its own straps released |
| `Tac.AvailableIff` | crates/conminer-core/src/tac.rs:394-495 | An action is available if and only if the board has every pin its steps set |
| `Tac.PowerFollows` | crates/conminer-core/src/tac.rs:394-495 | On leaves the board powered, off without power |
| `Tac.HeldWhileSampled` | crates/conminer-core/src/tac.rs:394-495 | A boot mode waits its five or eight seconds with the power on and all its straps raised |
| `Tac.OffWhileSettling` | crates/conminer-core/src/tac.rs:394-495 | Before it comes back, power is off for the settling time asked for |
| `Tac.StrapsBeforePower` | crates/conminer-core/src/tac.rs:394-495 | Except for UEFI the straps are up before the power comes on |
| `Discovery.LowestFree` | crates/conminer-core/src/store/registry.rs:420-451 | The port handed out is free, at or above the base, and the lowest such |
| `Discovery.Store.constructor` | crates/conminer-core/src/discovery.rs:234-240 | A registry starts with the rows it is given, in their order |
| `Discovery.Store.PortFor` | crates/conminer-core/src/store/registry.rs:420-451 | A row keeps its port or gets the lowest free one |
| `Discovery.Store.See` | crates/conminer-core/src/discovery.rs:244-285 | One device found: its row, its place in the row order and in the report |
| `Discovery.Store.Sweep` | crates/conminer-core/src/discovery.rs:287-326 | Every local cable the scan did not see is marked gone, and the newly gone are reported in row order |
| `Discovery.Store.Reconcile` | crates/conminer-core/src/discovery.rs:234-329 | A pass is all sightings in order, then the sweep |
| `Discovery.PassIsExact` | crates/conminer-core/src/discovery.rs:234-329 | After any pass: no row, note or port lost; a local non-sibling row is gone iff absent from the scan; unseen remote and sibling rows untouched; ports still distinct |
| `Discovery.GoneIsWhatVanished` | crates/conminer-core/src/discovery.rs:287-326 | A device is reported gone, once, iff it is a local cable, was not gone, and is absent from the scan |
| `Discovery.ReportIsExact` | crates/conminer-core/src/discovery.rs:244-285 | Added, returned and ignored hold exactly the devices the registry before the scan calls for, and the report counts every sighting |
| `Discovery.SeenState` | crates/conminer-core/src/discovery.rs:244-285 | A device seen ends ignored, discovered or as it was, by what was known before the scan |
| `Discovery.SeenIsEquipped` | crates/conminer-core/src/discovery.rs:244-285 | A device seen bears the time and is ignored iff excluded; a new one included gets the default settings; one without a port gets one from the base port on that was nobody's; a known row keeps its settings and port |
| `Discovery.ChangedIff` | crates/conminer-core/src/discovery.rs:224-229 | A pass reports a change if and only if some included device is new or back, or some local cable has just vanished |
| `Discovery.NothingIsForgotten` | crates/conminer-core/src/discovery.rs:234-329 | Over any sequence of scans every row, its notes and port survive, ports stay distinct, and presence matches the last scan |
| `Discovery.SecondLookChangesNothing` | crates/conminer-core/src/discovery.rs:224-329 | A second pass with the same scan at any clock reading reports no change and only stamps the devices seen with the new time |
| `Overrides.Parse` | crates/conminer-core/src/overrides.rs:108-144 | The loop folds every output line into the read |
| `Overrides.MergeInPlace` | crates/conminer-core/src/overrides.rs:136-141 | A repeated name is merged in place, to unknown where answers differ |
| `Overrides.LevelIsSettled` | crates/conminer-core/src/overrides.rs:108-144 | The level of a name depends only on the set of answers given for it: that answer if all agree, unknown otherwise |
| `Overrides.OrderDoesNotMatter` | crates/conminer-core/src/overrides.rs:108-181 | Reordering or repeating output lines changes no level and no summary |
| `Overrides.ClearIff` | crates/conminer-core/src/overrides.rs:168-185 | A normal boot is cleared iff some line was read as a signal and every signal line is released |
| `OverridesText.SignalIff` | crates/conminer-core/src/overrides.rs:108-144 | A line reports a level if and only if it is `name=value` with a valid name and any spaces around either: released iff the value is exactly 0, asserted iff exactly 1 |
| `OverridesText.ModeIff` | crates/conminer-core/src/overrides.rs:108-130 | A line declares a mode if and only if it is the four words `mode M asserts L` with two valid names |
| `OverridesText.NameIs` | crates/conminer-core/src/overrides.rs:108-114 | Names are capitals, digits and underscores, and not empty |
| `OverridesText.LevelText` | crates/conminer-core/src/overrides.rs:108-144 | Told from the text: a name is released iff all that is said of it is 0, asserted iff all is 1, and unread iff nothing is said |
| `OverridesText.SummaryText` | crates/conminer-core/src/overrides.rs:168-185 | Told from the text: a read is clear, and a normal boot allowed, iff something is said and all of it is 0; latched iff of some name nothing but 1 is said; unclear otherwise |
| `OverridesText.SpaceIs` | crates/conminer-core/src/overrides.rs:116-134 | The twenty-five code points trimmed as spaces |
| `OverridesText.OneStrap` | crates/conminer-core/src/overrides.rs:168-185 | `MD_EDL=1` latches, the same at 0 with spaces around clears |
| `Overrides.NeverClearedByMore` | crates/conminer-core/src/overrides.rs:108-185 | Once a line was reported as not released, no further output clears the read |
| `Overrides.ModeLevelIs` | crates/conminer-core/src/overrides.rs:195-208 | A mode has the level of the one line it was declared to hold; two declarations or an unread line are unknown, none is no answer |
| `Overrides.ModeOrderDoesNotMatter` | crates/conminer-core/src/overrides.rs:195-208 | Reordering or repeating output lines changes no mode level |

## Left out

- SQLite storage, record framing, profiles and USB enumeration: the line store is a sequence and the registry a map.
- Sockets, async scheduling, process spawning, timeouts and USB transfers are abstract steps or inputs; wall-clock time enters only as a counter.
- Counter, id, offset and port widths (`u64`, `usize`, `u16`): modelled as unbounded naturals. The 32-bit accumulator of the base64 decoder is modelled with its wrap-around.
- Floating-point similarity: each ratio test is a cross-multiplication of integers, so rounding at the threshold is not modelled.
- Drain.Drain.AddTokens: the walk of `leaf_for` that creates nodes through mutable references is modelled as the recursive value function `Insert`; update in place inside the tree is not captured.
- Tokenizing, ANSI stripping, numeric masking, rehydration from stored templates and merge suggestions of the template miner.
- Transfer.PlanPush: a shell command is the file operation it performs, `base64 -d` on the target is the decoder modelled here, and SHA-256 is an arbitrary function.
- Cksum.ComputeCksum: the 32-bit register is the sequence of its bits, most significant first, instead of a machine word.
- Telnet.StripperIsExactIff: covers buffers that encode some stream; of other byte strings `TelnetReference.StripperIsReference` covers those that open no subnegotiation.
- Hooks.LockKeyIs: the table of locks is a map from key to holder; template rendering and shell splitting are left out, the question is the rendered command.
- Live.Capture.AbsorbRaw: the broker, capture states, recovery detection and re-dialling are left out; the failure-banner test is an arbitrary predicate.
- Live.Capture.MineNext: feeding is assumed to succeed, and framing and template mining of the stored lines are not part of this model.
- Search.DegradedScan: line scope only; the pattern is an arbitrary predicate on the text. Full-text, window and record-scope search and literal extraction are left out.
- Tac.Controller.SetPin: the shift of a pin number of eight or more wraps as in a release build, where a debug build would panic; a port write that fails midway is modelled as an interruption of the sequence; configuration files and pin reading are left out.
- Discovery.Store.See: bus paths and identity fields are left out; the stored line settings, nickname and tags of a row are one opaque text.
- Overrides.Parse: the output is given as its lines, already separated.
- Bisect.NextStep: an empty candidate list is excluded, as the source indexes the first candidate; looking a candidate up by name is left out.
- Rendering of carriage-return overwrites, prompt classification, the command runner, ser2net configuration, decoding tables, ZMODEM and clock handling.
