# A verified model of the Redis 5.0.5 server core

This project models the parts of the vendored Redis server whose behaviour is hard to see from any
one function, and proves what they promise. It is written in Dafny 4.11; `dafny verify dfyconfig.toml`
checks all of it.

What is modelled, and where:

- **Cluster.** Replica election by epoch votes (`Election.dfy`), config epochs made distinct after
  collisions (`EpochCollision.dfy`), the slot table with its bitmaps and counters (`SlotTable.dfy`,
  `Bits.dfy`), the merge of slot claims (`SlotMerge.dfy`) and the routing of requests (`Routing.dfy`).
  Distributed properties are stated over all runs of a step relation in which packets may be lost,
  delayed, reordered and, for pings, repeated.
- **Append only file.** Printing and loading commands (`Decimal.dfy`, `StringToLong.dfy`,
  `Framing.dfy`, `Resp.dfy`, `CommandLog.dfy`, `LoadErrors.dfy`), the dataset and the commands that act on it while
  loading and live (`Dataset.dfy`, `Live.dfy`, `Commands.dfy`), the snapshot writer (`Snapshot.dfy`, `Rebuild.dfy`),
  the translation of live commands (`Feed.dfy`, `Propagation.dfy`), the rewrite buffer and the
  two-process rewrite (`RewriteBuffer.dfy`, `Handshake.dfy`, `AofServer.dfy`), flushing (`Flush.dfy`),
  all of it together (`Legible.dfy`, `EndToEnd.dfy`), and a crash at any byte (`TornCommand.dfy`,
  `Crash.dfy`).
- **Bit operations.** Population count (`Popcount.dfy`), bit search (`Bitpos.dfy`) and bit fields
  (`Bitfield.dfy`, `BitfieldOps.dfy`).
- **Blocked clients.** The client/key index and the serving loops (`ListServing.dfy`, `Blocked.dfy`).
- **Slot-to-key index** (`OrderedIndex.dfy`, `SlotKeys.dfy`) and **background jobs** (`Bio.dfy`).
- **Shared definitions** on options, sequences and sets (`Basics.dfy`).

Code that updates state in place is modelled by classes and methods with loops, each proved against a
specification; what the source promises is then proved of the specification. System calls, the clock,
the order in which a dictionary is iterated, the hash function and the effect of commands outside the
model are parameters, so every statement holds for all of them.

## Where the code does less than its comments say

Each of these is a property that is false of the code. The model keeps the code as it is, gives a
concrete input, and proves exactly when the property holds.

- Election: an acknowledgement of an earlier election that arrives after the counter was reset and
  before votes are asked for is counted for the new epoch, and two replicas can win it
  (`StaleAckElectsTwo`, `StaleExactly`, `PromptRunsElectOne`).
- Writing SET: an EX or PX whose value was overridden is still scanned, and a value that reads as the
  other word trips the assertion (`AmbiguousStops`, `StopsExactly`).
- BITFIELD SET with OVERFLOW SAT: the comment says the distances cannot overflow where they are used;
  they can, and a very small argument saturates a signed field to the maximum (`SaturatesTheWrongWay`,
  `SignedIsIdealExactly`). Any negative argument saturates an unsigned field to the maximum, since it
  is converted first (`SaturatesUpwards`, `UnsignedIsIdealExactly`). Signed overflow, undefined in C, is
  taken to wrap around.
- Loading a file cut inside a transaction and inside a command leaves the opening MULTI in the file,
  so that later commands are lost at the next load (`AppendedIsLost`, `RecoveryIsDurable`).
- A snapshot loses an expiry of exactly -1 (`MinusOneIsLost`, `SnapshotIsFaithful`).
- A crash need not recover a state the live server had: SETEX is written as two commands, and a log cut
  between them recovers a value without its expiry (`TornPairIsNew`, `CrashExactly`).
- The rewritten file is complete if and only if the child's last read emptied the pipe; the child does
  not look at the error that ended it (`SwitchCanLose`, `SwitchExactly`).

The bound proved for config epoch collisions, one bump per master with a greater name, is linear in
the rank of the name.

## Assumptions

- Election: a fixed set of voting masters that all nodes agree on, no crash of a voter, packets
  delivered at most once, no RESET and no TAKEOVER. A vote is identified by voter and epoch.
- Collisions: collisions are the only source of new config epochs.
- Slot merge: one claim per master, with distinct epochs; a replica knows its master.
- Feeding: the clock stands still while one command runs; commands that are not interpreted have an
  effect that depends only on the arguments and the database. Arithmetic on times wraps at 64 bits.
- Words of the population count are loaded in little-endian order; a word of the bit search is its
  eight bytes. Bit fields are 1 to 63 bits wide: the code accepts signed fields
  of 64 bits, but then shifts a 64-bit number by 64, which C leaves undefined.
- A negative argument length in a log, which the code turns into a huge allocation, counts as a read error.

## Model

| member | source | states |
|---|---|---|
| `Election.ElectionSafety` | redis-service/redis-5.0.5/src/cluster.c:2946-3115 | In every run of any number of nodes (packets lost, delayed, reordered; epochs bumped, views and roles changed), two wins of the same election epoch that counted no stale acknowledgement are by the same replica. |
| `Election.PromptRunsElectOne` | redis-service/redis-5.0.5/src/cluster.c:3016-3111 | In every run in which no acknowledgement is counted between scheduling an attempt and asking for votes, no epoch is won by two replicas. |
| `Election.StaleExactly` | redis-service/redis-5.0.5/src/cluster.c:2045-2057 | A step makes a candidate count a stale vote if and only if it delivers an acknowledgement from a voting master, with a high enough epoch, to a replica whose attempt is scheduled and not yet asked for. |
| `Election.StaleAckElectsTwo` | redis-service/redis-5.0.5/src/cluster.c:3016-3092 | A concrete run in which such an acknowledgement lets two replicas win epoch 2: the safety property is false of the code without the condition above. |
| `Election.VotesIncrease` | redis-service/redis-5.0.5/src/cluster.c:2706-2807 | A step never withdraws or changes a granted vote, and a new vote of a master carries a strictly greater epoch than all its earlier ones. |
| `Election.CountedAckIsCurrent` | redis-service/redis-5.0.5/src/cluster.c:2045-2057 | An acknowledgement that raises a candidate's count carries exactly the epoch of that candidate's latest election and is the receipt of the vote recorded for it. |
| `Election.StepKeepsInv` | redis-service/redis-5.0.5/src/cluster.c:1700-1713 | Every step keeps the invariant: epochs ordered, each vote answering an election its candidate held, every acknowledgement in flight the single receipt of a vote not yet counted, every count backed by votes, every win by a quorum. |
| `Election.RequestKeepsInv` | redis-service/redis-5.0.5/src/cluster.c:2706-2807 | Answering a vote request keeps that invariant, whether the vote is granted or refused. |
| `Election.AckKeepsInv` | redis-service/redis-5.0.5/src/cluster.c:2045-2057 | Counting an acknowledgement keeps that invariant. |
| `Election.CronKeepsInv` | redis-service/redis-5.0.5/src/cluster.c:2946-3115 | Every branch of the failover cron (waiting, scheduling, asking, promoting) keeps that invariant. |
| `Election.RunKeepsInv` | redis-service/redis-5.0.5/src/cluster.c:2946-3115 | The invariant holds after every run. |
| `Election.WinsExactly` | redis-service/redis-5.0.5/src/cluster.c:3094-3111 | The failover cron makes a replica win exactly when it is eligible, has asked, is in time and has counted a majority; it is a master then and its config epoch is raised to the epoch it won. |
| `Election.WinnerTakesEpoch` | redis-service/redis-5.0.5/src/cluster.c:3102-3111 | Every step that adds a win leaves the winner a master whose config epoch is the one recorded, at least the epoch won, and that epoch or the one it had. |
| `Election.WinnersHoldTheirEpoch` | redis-service/redis-5.0.5/src/cluster.c:3102-3111 | At every point of every run each replica that ever won holds a config epoch at least the one it won. |
| `Election.AsksExactly` | redis-service/redis-5.0.5/src/cluster.c:3080-3092 | Votes are asked for exactly when an attempt that has not asked is due and not too old: a new epoch is opened, and every reachable node is asked with the master's slots and epoch. |
| `Election.SchedulesExactly` | redis-service/redis-5.0.5/src/cluster.c:3018-3049 | A new attempt is scheduled exactly when the last is older than twice its patience, with the delays by hand, by draw and by rank. |
| `Election.WaitsOtherwise` | redis-service/redis-5.0.5/src/cluster.c:3051-3078 | Otherwise only time and rank of the attempt move, and nothing at all if the replica is not eligible. |
| `Election.VotesExactly` | redis-service/redis-5.0.5/src/cluster.c:2706-2797 | A vote is granted exactly when the seven guards hold, each spelled out: voting master, epoch not old, no vote in it yet, replica of a known master, failed or forced, two node timeouts since the last vote for it, no claimed slot under a greater epoch. |
| `Election.VoteIsRecorded` | redis-service/redis-5.0.5/src/cluster.c:2799-2807 | A granted vote is recorded under the epoch asked for, remembered with its time, and acknowledged if there is a link; no other delivery touches votes. |
| `Election.AcksExactly` | redis-service/redis-5.0.5/src/cluster.c:2045-2057 | A delivery raises the counter by one exactly if it is an acknowledgement of a voting master whose epoch is not older than the election. |
| `Election.DeliveryRaisesEpochs` | redis-service/redis-5.0.5/src/cluster.c:1702-1713 | Every packet raises the receiver's current epoch and the epoch known of the sender to those of the header, and changes no other epoch or belief. |
| `Election.PingCarries` | redis-service/redis-5.0.5/src/cluster.c:2247-2275 | A ping carries the sender's current epoch and the config epoch of the master it stands for. |
| `Election.BumpTakesNew` | redis-service/redis-5.0.5/src/cluster.c:1012-1029 | An epoch taken without an election is greater than any its node has seen. |
| `Election.RoleCanChange` | redis-service/redis-5.0.5/src/cluster.c:3932-3948 | Other handlers may rewrite a node's view and role, so that a winner can stand again; its poll and epochs stay. |
| `Election.PacketCanBeLost` | redis-service/redis-5.0.5/src/cluster.c:2150-2190 | A packet in flight can be lost, and then only it is gone. |
| `EpochCollision.MovesBounded` | redis-service/redis-5.0.5/src/cluster.c:1077-1092 | In any run, with any stale or repeated pings, a master changes its config epoch at most once per master with a greater name; the greatest name never does. |
| `EpochCollision.CollisionsEnd` | redis-service/redis-5.0.5/src/cluster.c:1031-1092 | The number of bumps in any run of n masters is at most n(n-1)/2. |
| `EpochCollision.SettledIffDistinct` | redis-service/redis-5.0.5/src/cluster.c:1989-1996 | In any reachable state no current ping would cause a bump if and only if all config epochs differ. |
| `EpochCollision.BumpsExactly` | redis-service/redis-5.0.5/src/cluster.c:1077-1093 | Hearing the current header of another master moves exactly the colliding lesser name. |
| `EpochCollision.DeliveryBumpsExactly` | redis-service/redis-5.0.5/src/cluster.c:1077-1093 | Any ping, however late, moves its receiver exactly when it shows the receiver's config epoch, comes from a greater name, and nothing greater was known of that name. |
| `EpochCollision.DeliveryTakesNext` | redis-service/redis-5.0.5/src/cluster.c:1702-1713 | Hearing a ping a master knows at least the epochs in it; if it moves, it takes the epoch after the greater of the two current ones, else it keeps its own. |
| `EpochCollision.SendShows` | redis-service/redis-5.0.5/src/cluster.c:2247-2275 | What a master sends is what it has. |
| `EpochCollision.BumpIsAboveAllHeard` | redis-service/redis-5.0.5/src/cluster.c:1084-1085 | After every run a master that moves takes an epoch greater than every current epoch it was ever told. |
| `EpochCollision.RunKeepsInv` | redis-service/redis-5.0.5/src/cluster.c:1700-1713 | After every run each master's epoch is the greatest it held, every earlier one was held by a greater name, and every ping sent carries an epoch its sender held. |
| `Decimal.ParsePrint` | redis-service/redis-5.0.5/src/util.c:294-346 | Parsing what ll2string writes gives the number back, whatever follows it other than a digit. |
| `Decimal.ParseFirst` | redis-service/redis-5.0.5/src/util.c:294-346 | Blanks are skipped and one sign taken as strtoll does; anything but a digit ends the number. |
| `StringToLong.String2ll` | redis-service/redis-5.0.5/src/util.c:360-424 | The digit loop with its overflow tests returns the number if and only if the text is the canonical decimal form of a 64-bit integer. |
| `StringToLong.LongRoundTrip` | redis-service/redis-5.0.5/src/util.c:360-424 | A text reads as n exactly when it is what ll2string writes for n. |
| `Resp.CatGenericCommand` | redis-service/redis-5.0.5/src/aof.c:518-541 | The loop appends exactly the printed command to the buffer. |
| `Resp.CommandsCode` | redis-service/redis-5.0.5/src/aof.c:766-802 | A printed command with arbitrary argument bytes is read back exactly whatever follows it, and every proper prefix of it is noticed as cut short, never as a format error. |
| `Framing.ReadItems` | redis-service/redis-5.0.5/src/aof.c:781-802 | The argument loop reads what the recursive reader specifies, including where it stops on an error. |
| `LoadErrors.NoStarIsRefused` | redis-service/redis-5.0.5/src/aof.c:770-770 | After any readable log, a byte that does not begin a command ends the load with a format error, whatever aof-load-truncated says; it is never taken for a file cut short. |
| `LoadErrors.NoDollarIsRefused` | redis-service/redis-5.0.5/src/aof.c:787-787 | The same for a byte among the arguments of a command that does not begin one, after any number of arguments. |
| `LoadErrors.BadCountIsRefused` | redis-service/redis-5.0.5/src/aof.c:771-773 | The same for a count line whose number is below one or that holds none. |
| `LoadErrors.NulIsRefused` | redis-service/redis-5.0.5/src/aof.c:771-771 | A NUL in place of the number is a read error that ends the load. |
| `LoadErrors.LongNulIsRefused` | redis-service/redis-5.0.5/src/aof.c:764-771 | The same for a line that fills the buffer without ending. |
| `LoadErrors.NulAtTheEnd` | redis-service/redis-5.0.5/src/aof.c:764-771 | If the file ends within that line, it is a file cut short. |
| `LoadErrors.BadLengthIsRefused` | redis-service/redis-5.0.5/src/aof.c:788-795 | So does an argument whose length is negative, after any number of arguments. |
| `LoadErrors.TrailerIsSkipped` | redis-service/redis-5.0.5/src/aof.c:796-801 | The two bytes after an argument are skipped whatever they are. |
| `LoadErrors.UnknownIsRefused` | redis-service/redis-5.0.5/src/aof.c:804-811 | A command the server does not know ends the load, whatever follows it. |
| `LoadErrors.NotALog` | redis-service/redis-5.0.5/src/aof.c:698-750 | Exactly an empty file is not loaded, and exactly one that begins with the five letters is taken for an RDB image. |
| `LoadErrors.StrictLoad` | redis-service/redis-5.0.5/src/aof.c:858-893 | With aof-load-truncated off a prefix of a log loads exactly if it ends with a command and outside a transaction. |
| `LoadErrors.LenientLoad` | redis-service/redis-5.0.5/src/aof.c:858-893 | With it on, every prefix of a log loads, runs what is whole in it, and is cut behind that unless a transaction is open. |
| `LoadErrors.TransactionIsAtomic` | redis-service/redis-5.0.5/src/aof.c:813-823 | However far a file goes, a transaction in it runs at its EXEC, whole and in order, and before that not at all. |
| `Resp.ReadNext` | redis-service/redis-5.0.5/src/aof.c:758-802 | Reading one command, with its count line and argument loop, gives what the reader proved inverse to the printer gives, error exits included. |
| `CommandLog.LoadAppendOnlyFile` | redis-service/redis-5.0.5/src/aof.c:698-900 | The loading loop with its running offsets, MULTI bookkeeping and error exits computes the specified load result; a file that cannot be truncated is treated as with aof-load-truncated off. |
| `CommandLog.RoundTrip` | redis-service/redis-5.0.5/src/aof.c:752-848 | Loading a printed log runs exactly its commands, transactions included, and leaves the file as it is. |
| `CommandLog.PlainPrefixRecovers` | redis-service/redis-5.0.5/src/aof.c:860-891 | Every non-empty byte prefix of a MULTI-free log loads, runs exactly the commands wholly inside it, and is cut after the last of them. |
| `CommandLog.LoadPrefix` | redis-service/redis-5.0.5/src/aof.c:843-891 | The result of loading any byte prefix of any log: what ran, and where the file is cut, in terms of the commands wholly inside. |
| `CommandLog.RecoveryIsDurable` | redis-service/redis-5.0.5/src/aof.c:843-848 | What is appended after recovering a cut log, transactions included, has its effect at the next load if and only if the cut was at a command boundary or outside a transaction; otherwise the opening MULTI stays in the file, and only in the two cases stated does nothing go wrong. |
| `CommandLog.AppendedIsLost` | redis-service/redis-5.0.5/src/aof.c:843-848 | MULTI, SET, EXEC cut inside the SET is recovered as nothing; a SET appended then is not run at the next load. |
| `Snapshot.RewriteCollection` | redis-service/redis-5.0.5/src/aof.c:922-1122 | The count/items loop shared by lists, sets, sorted sets and hashes writes exactly the printed chunk commands: every declared argument count is the number of arguments that follow. |
| `Snapshot.ChunksAreSmall` | redis-service/redis-5.0.5/src/aof.c:922-948 | No command carries more than the per-command item limit and none is without items. |
| `Snapshot.ChunksAreFull` | redis-service/redis-5.0.5/src/aof.c:922-948 | No more commands are written than it takes: all but the last carry the limit. |
| `Snapshot.WriteRow` | redis-service/redis-5.0.5/src/aof.c:1307-1347 | One key is written as the commands for its value followed by PEXPIREAT when it has an expiry. |
| `Snapshot.RewriteAppendOnlyFileRio` | redis-service/redis-5.0.5/src/aof.c:1289-1362 | The whole output is the printed snapshot log: a SELECT before every non-empty database, then its keys. |
| `Rebuild.AddAllRebuilds` | redis-service/redis-5.0.5/src/aof.c:922-1122 | Adding what an iteration of a collection shows to an empty collection gives the collection, for lists, sets, hashes and sorted sets and every iteration order. |
| `Rebuild.ReplayChunks` | redis-service/redis-5.0.5/src/aof.c:925-948 | Replaying the chunk commands of a collection stores all its items, keeping the key's expiry. |
| `Rebuild.SnapshotRebuilds` | redis-service/redis-5.0.5/src/aof.c:1289-1362 | Replaying a snapshot from empty rebuilds every key, value and expiry, for any dataset and any iteration order, except that an expiry of exactly -1 is lost. |
| `Rebuild.SnapshotIsFaithful` | redis-service/redis-5.0.5/src/aof.c:1316-1347 | The rebuilt databases equal the original ones if and only if no key carries the expiry -1. |
| `Rebuild.MinusOneIsLost` | redis-service/redis-5.0.5/src/aof.c:1316-1347 | A log with SET and PEXPIREAT -1 loads to a key with that expiry, and the snapshot taken then rebuilds the key without one. |
| `Feed.ExecuteIsFaithful` | redis-service/redis-5.0.5/src/aof.c:580-644 | For every database and every command other than the accepted SETs that trip the assertion, replaying what is written gives the database the live execution gave, with lazy expiry, refused commands and relative expiries included. |
| `Feed.FaithfulSet` | redis-service/redis-5.0.5/src/t_string.c:67-140 | The same for SET with any options NX, XX, EX, PX, spelled and repeated in any way, whether setCommand accepts or refuses it. |
| `Feed.FaithfulSetEx` | redis-service/redis-5.0.5/src/aof.c:599-606 | The same for SETEX and PSETEX, written as SET and PEXPIREAT. |
| `Feed.FaithfulExpire` | redis-service/redis-5.0.5/src/expire.c:405-450 | The same for EXPIRE, PEXPIRE, EXPIREAT and PEXPIREAT, including those that delete the key and are written as DEL or UNLINK. |
| `Commands.ExpireTakesMoment` | redis-service/redis-5.0.5/src/expire.c:405-470 | On a live key the expiry stored, and the one written, is now + 1000 v, now + v, 1000 v or v milliseconds for EXPIRE, PEXPIRE, EXPIREAT and PEXPIREAT, and the key goes if that is not after now. |
| `Commands.ExpireRefuses` | redis-service/redis-5.0.5/src/expire.c:409-419 | No key, an expired one, or an argument that is no number: nothing but the reaping. |
| `Commands.SetexTakesMoment` | redis-service/redis-5.0.5/src/t_string.c:142-150 | SETEX and PSETEX of a positive number store value and now + 1000 v or now + v and are written as SET and PEXPIREAT with that number; any other argument is refused. |
| `Commands.SetTakesMoment` | redis-service/redis-5.0.5/src/t_string.c:67-94 | SET refuses a bad expiry, then an unmet NX or XX, and otherwise stores value and time whatever was there. |
| `Commands.SetPlainly` | redis-service/redis-5.0.5/src/t_string.c:67-94 | Without options SET stores the value and drops any expiry; with options that do not parse it does nothing. |
| `Commands.SetWritesMoment` | redis-service/redis-5.0.5/src/aof.c:607-622 | What is written for it is key and value, and PEXPIREAT with the same number if there is one. |
| `Commands.OptionsAccepted` | redis-service/redis-5.0.5/src/t_string.c:96-140 | Every list of the four options, in any case and repeated at will, that does not ask for NX and XX or for EX and PX is accepted, and the last value counts. |
| `Commands.OptionsRead` | redis-service/redis-5.0.5/src/t_string.c:96-140 | Nothing else is accepted. |
| `Commands.SpellsExactly` | redis-service/redis-5.0.5/src/t_string.c:105-122 | An argument counts as an option if, as a C string, it has its two letters in any case. |
| `Commands.ReapExactly` | redis-service/redis-5.0.5/src/db.c:1131-1181 | A key is removed on access exactly when its time, not negative, has passed. |
| `Commands.DelExactly` | redis-service/redis-5.0.5/src/db.c:468-484 | DEL removes every key it names, tells of each expired one on its own, and is written itself exactly when one was alive. |
| `Commands.DeletionCounts` | redis-service/redis-5.0.5/src/db.c:468-484 | Its count is the number of distinct live keys named. |
| `Commands.AddExactly` | redis-service/redis-5.0.5/src/t_list.c:197-233 | RPUSH, SADD, HMSET and ZADD create or extend the collection as their arguments say, keep its expiry, refuse another type, and are written exactly when they count as a change. |
| `Commands.CaseIsIgnored` | redis-service/redis-5.0.5/src/server.c:485-492 | Two names are one command's exactly if they differ at most in the case of their letters. |
| `Commands.CommandNames` | redis-service/redis-5.0.5/src/server.c:126-170 | The names the model knows, spelled out, are those commands' and no others. |
| `Commands.NamesSpelt` | redis-service/redis-5.0.5/src/server.c:126-170 | The letters of SELECT, SET, SETEX, PSETEX, DEL and UNLINK. |
| `Commands.ExpireNamesSpelt` | redis-service/redis-5.0.5/src/server.c:126-170 | The letters of the four expire commands. |
| `Commands.AddNamesSpelt` | redis-service/redis-5.0.5/src/server.c:126-170 | The letters of RPUSH, SADD, HMSET and ZADD. |
| `Commands.OtherNames` | redis-service/redis-5.0.5/src/server.c:126-170 | Any other name is none of them. |
| `Commands.LoadIgnoresMalformed` | redis-service/redis-5.0.5/src/t_list.c:197-215 | While loading, a malformed adding command or one for another type changes nothing. |
| `Commands.WrapExactly` | redis-service/redis-5.0.5/src/expire.c:412-413 | A number that fits 64 bits is left alone by the arithmetic on times, any other moved by a multiple of 2^64. |
| `Commands.StrtollExactly` | redis-service/redis-5.0.5/src/aof.c:553-556 | Reading a number for the log keeps what fits and clamps the rest. |
| `Feed.FaithfulDel` | redis-service/redis-5.0.5/src/db.c:468-484 | The same for DEL and UNLINK of several keys, some of them expired or repeated. |
| `Feed.OptionsFound` | redis-service/redis-5.0.5/src/aof.c:607-622 | What the option scan finds in an accepted SET: both words when both occur, and otherwise exactly the value and unit setCommand used. |
| `Feed.LastArgument` | redis-service/redis-5.0.5/src/t_string.c:96-140 | The last argument of an accepted SET never spells EX or PX, so the scan does not read beyond the arguments. |
| `Feed.StopsExactly` | redis-service/redis-5.0.5/src/aof.c:607-622 | Writing what a command propagates fails the assertion, and replaying it is unfaithful, if and only if the command is a SET that setCommand accepts and stores and whose arguments after the value spell both EX and PX. |
| `Feed.AmbiguousStops` | redis-service/redis-5.0.5/src/aof.c:612-616 | SET k v EX px EX 10 is accepted and fails the assertion. |
| `Propagation.FeedAppendOnlyFile` | redis-service/redis-5.0.5/src/aof.c:580-644 | The bytes appended for one call are the printed SELECT, if the database changed, and the printed translation; the assertion fails exactly where the translation has no result. |
| `Propagation.CatExpireAtCommand` | redis-service/redis-5.0.5/src/aof.c:550-578 | The appended bytes are PEXPIREAT with the absolute time in milliseconds. |
| `Propagation.FindExpiry` | redis-service/redis-5.0.5/src/aof.c:612-615 | The scan returns the argument after the last EX and after the last PX. |
| `Propagation.PropagatedIsExecuted` | redis-service/redis-5.0.5/src/aof.c:595-628 | Every command handed to the writer by an execution meets what the writer relies on. |
| `Propagation.FeedAllSelectsOnce` | redis-service/redis-5.0.5/src/aof.c:586-593 | All commands fed by one execution share a single SELECT, and none is written when that database is already selected. |
| `Propagation.ForgetReselects` | redis-service/redis-5.0.5/src/aof.c:1605-1612 | Once the selected database is forgotten, whatever is written next begins with a SELECT. |
| `Propagation.FeedPreservesMeaning` | redis-service/redis-5.0.5/src/aof.c:580-644 | For every run of commands, expiries and resets of the selected database over any number of databases, replaying everything written at any later time gives exactly the live databases. |
| `RewriteBuffer.Buffer.Append` | redis-service/redis-5.0.5/src/aof.c:124-172 | The bytes are appended in order; the last block is filled up first, and no block is added before the one before it is full. |
| `RewriteBuffer.Buffer.ChildWriteDiffData` | redis-service/redis-5.0.5/src/aof.c:95-122 | What is sent and what is kept is what was buffered, through partial and failing writes; as much is sent as the writes accept before one accepts nothing, and nothing once told to stop. |
| `RewriteBuffer.AllIsSent` | redis-service/redis-5.0.5/src/aof.c:95-122 | If every write accepts something, everything is sent, however little at a time. |
| `RewriteBuffer.FailureEndsIt` | redis-service/redis-5.0.5/src/aof.c:95-122 | The first write that accepts nothing ends the round. |
| `RewriteBuffer.Buffer.Write` | redis-service/redis-5.0.5/src/aof.c:177-194 | Everything reaches the file and is counted, or -1 exactly if a write of some block is short or fails. |
| `RewriteBuffer.Buffer.Size` | redis-service/redis-5.0.5/src/aof.c:79-90 | The sum over the blocks is the number of buffered bytes. |
| `Handshake.StepConserves` | redis-service/redis-5.0.5/src/aof.c:95-194 | Every step of parent and child keeps child diff, pipe and buffer together equal, in order, to the bytes fed since the fork. |
| `Handshake.RunKeepsInv` | redis-service/redis-5.0.5/src/aof.c:1426-1497 | At every point of every interleaving that holds, the child has its answer only after the parent stopped sending, and the child's file is a prefix of the snapshot, the snapshot, or snapshot and diff. |
| `Handshake.SwitchExactly` | redis-service/redis-5.0.5/src/aof.c:1660-1770 | After every run, the rewritten file that takes over is the snapshot followed by exactly the bytes fed since the fork if and only if the last read of the child left nothing in the pipe. |
| `Handshake.SwitchCanLose` | redis-service/redis-5.0.5/src/aof.c:1426-1450 | From every idle state some run, in which a byte is sent and the last read gives up before it, ends in a switch that loses the byte. |
| `Handshake.DroppedIsCovered` | redis-service/redis-5.0.5/src/aof.c:1766-1769 | The pending buffer dropped at the switch is a suffix of everything fed: its part since the fork is in the new file, the rest was fed before the snapshot was taken. |
| `Handshake.RewriteCompletes` | redis-service/redis-5.0.5/src/aof.c:1371-1497 | From every idle state, for any snapshot and any bytes fed meanwhile, some interleaving completes the rewrite: the statements above are not empty. |
| `Handshake.FailureKeepsEverything` | redis-service/redis-5.0.5/src/aof.c:1780-1808 | Every other end of a rewrite leaves the file and the pending bytes as they were, still holding everything fed. |
| `Handshake.DoneExactly` | redis-service/redis-5.0.5/src/aof.c:1660-1808 | The rewritten file takes over exactly when the child ended well, its file was found, all buffered bytes were appended and the rename succeeded; the rewrite is over in any case. |
| `Handshake.FeedReaches` | redis-service/redis-5.0.5/src/aof.c:630-642 | Bytes fed reach the file's buffer if the file is in use and the rewrite buffer if a rewrite runs, and nothing else. |
| `Handshake.ForkStarts` | redis-service/redis-5.0.5/src/aof.c:1559-1625 | A rewrite starts with empty pipes, nothing received and sending allowed. |
| `Handshake.FlushAndFail` | redis-service/redis-5.0.5/src/aof.c:1447-1460 | Flushing moves bytes from the front of the buffer to the end of the file; a child that fails is known to have failed. |
| `Handshake.HandshakeOrder` | redis-service/redis-5.0.5/src/aof.c:1426-1497 | The child asks only with its snapshot written and goes on only when answered; the parent answers only when asked and sends nothing from then on. |
| `AofServer.Aof.Feed` | redis-service/redis-5.0.5/src/aof.c:633-644 | The bytes of a command go to the pending buffer when the file is in use and to the rewrite buffer while a child runs, and the selected database is remembered. |
| `AofServer.Aof.SendDiff` | redis-service/redis-5.0.5/src/aof.c:95-122 | A round of sending takes a prefix of the rewrite buffer and changes nothing else the protocol sees. |
| `AofServer.Aof.HearStop` | redis-service/redis-5.0.5/src/aof.c:1475-1497 | The byte of the child, and no other, stops the sending, as the protocol step does. |
| `AofServer.Aof.StartRewrite` | redis-service/redis-5.0.5/src/aof.c:1602-1614 | Starting a rewrite keeps the buffer, allows sending, and forgets the selected database. |
| `AofServer.Aof.RewriteDone` | redis-service/redis-5.0.5/src/aof.c:1660-1808 | The handler's success condition and the state after success and after every failure are those of the protocol step. |
| `EndToEnd.SnapshotThenDiff` | redis-service/redis-5.0.5/src/aof.c:1605-1612 | The snapshot of the databases at the fork followed by what was written since replays to the live databases. |
| `EndToEnd.RewriteKeepsDataset` | redis-service/redis-5.0.5/src/aof.c:1559-1778 | After any background rewrite whose last read emptied the pipe, under every interleaving and for any commands executed meanwhile, loading the new file gives the live dataset. |
| `Legible.RunIsFine` | redis-service/redis-5.0.5/src/aof.c:580-644 | Everything written during any run is readable by the loader and free of transactions, if what clients send is. |
| `Legible.SnapshotIsFine` | redis-service/redis-5.0.5/src/aof.c:1289-1362 | So is every snapshot of keys and values of sizes a C integer holds. |
| `TornCommand.ExecuteIsShaped` | redis-service/redis-5.0.5/src/db.c:1113-1181 | What any execution propagates is deletions of distinct expired keys followed by at most one command, which changed the database. |
| `TornCommand.CallLeaves` | redis-service/redis-5.0.5/src/aof.c:595-628 | Replaying the first q commands written for a call gives the database before or after it if and only if q is none or all of them or a torn pair restores what was there; and what clients see before or after it if and only if no SET is cut from its PEXPIREAT, or the key already held that value without expiry. |
| `Crash.CrashExactly` | redis-service/redis-5.0.5/src/aof.c:860-891 | For every run and every byte at which a crash cuts its log: loading recovers the databases before or after the event the cut falls in, or what clients saw of them, exactly under those two conditions; a torn pair recovers the value without its expiry. |
| `Crash.SomeEvent` | redis-service/redis-5.0.5/src/aof.c:580-644 | Every cut of the log of a run falls in the commands written by some event of it. |
| `Crash.SetexWrites` | redis-service/redis-5.0.5/src/aof.c:599-606 | On an empty database SETEX writes exactly SELECT, SET and PEXPIREAT. |
| `Crash.TornPairIsNew` | redis-service/redis-5.0.5/src/aof.c:599-606 | The log of SETEX k 10 v on an empty server, cut before its PEXPIREAT, loads to k without expiry, while the live server had the empty database and then k with its expiry. |
| `Crash.OlderStateComesBack` | redis-service/redis-5.0.5/src/aof.c:599-606 | Why states just before and after the event are compared: after SET k v and DEL k, half of SETEX k 10 v is the state after the SET. |
| `Flush.AofWrite` | redis-service/redis-5.0.5/src/aof.c:297-316 | Exactly the bytes the calls accept before an error are written and counted; -1 means an error before the first byte. |
| `Flush.AcceptedExactly` | redis-service/redis-5.0.5/src/aof.c:297-316 | Without an error everything is accepted, however often calls are interrupted or short; with one, what was written before it. |
| `Flush.AppendOnlyFile.FlushAppendOnlyFile` | redis-service/redis-5.0.5/src/aof.c:337-515 | File and buffer together stay everything fed. File, buffer, error state, synced offset and time are given for an empty buffer, a flush put off, one that writes all, and one that fails with or without a successful truncation; a whole flush syncs as the policy says, and only under always does a failure end the server. |
| `Flush.AppendOnlyFile.PutOffExactly` | redis-service/redis-5.0.5/src/aof.c:361-382 | Only a running sync under everysec puts a flush off, never a forced one, and from the first time on for less than two seconds. |
| `Flush.AppendOnlyFile.Feed` | redis-service/redis-5.0.5/src/aof.c:633-634 | Feeding appends to the buffer and keeps that invariant. |
| `Flush.AppendOnlyFile.TryFsync` | redis-service/redis-5.0.5/src/aof.c:490-515 | The synced offset never passes the file's length and moves only as the policy says. |
| `SlotTable.Node.SetSlotBit` | redis-service/redis-5.0.5/src/cluster.c:3664-3687 | The slot joins the node's bitmap, the count stays the number of set bits, and the previous bit is returned. |
| `SlotTable.Node.ClearSlotBit` | redis-service/redis-5.0.5/src/cluster.c:3689-3694 | The slot leaves the bitmap, with the same promises. |
| `SlotTable.BitmapLayout` | redis-service/redis-5.0.5/src/cluster.c:3624-3644 | Slot 8 i + k is bit k of byte i of a bitmap. |
| `Bits.MasksDouble` | redis-service/redis-5.0.5/src/cluster.c:3624-3644 | The masks of the bits are the powers of two in order. |
| `SlotTable.Cluster.AddSlot` | redis-service/redis-5.0.5/src/cluster.c:3705-3710 | A slot without owner gets one, a slot with an owner is refused, and table, bitmaps and counts agree afterwards. |
| `SlotTable.Cluster.DelSlot` | redis-service/redis-5.0.5/src/cluster.c:3715-3722 | The slot loses its owner; the asserted bit is always set; table, bitmaps and counts agree afterwards. |
| `SlotTable.Cluster.GetSlotBit` | redis-service/redis-5.0.5/src/cluster.c:3697-3699 | A node's bit is set exactly when the table names it owner of the slot. |
| `SlotTable.Cluster.DelNodeSlots` | redis-service/redis-5.0.5/src/cluster.c:3726-3736 | Exactly the node's slots are freed and their number is returned. |
| `SlotTable.Cluster.DelNode` | redis-service/redis-5.0.5/src/cluster.c:905-932 | No slot, importing or migrating entry refers to the deleted node, all others are as before, and everything still agrees. |
| `SlotTable.Cluster.TakeSlots` | redis-service/redis-5.0.5/src/cluster.c:1553-1592 | Each claimed slot goes to the claimant exactly when it has no owner or one with a smaller epoch and is not being imported; the dirty list is exactly the slots taken from this node that hold keys, in order. |
| `SlotTable.Cluster.UpdateSlotsConfigWith` | redis-service/redis-5.0.5/src/cluster.c:1530-1624 | The table changes as the merge of claims specifies; this node becomes a replica of the claimant exactly when its slot-serving master lost its last slot; otherwise exactly the lost slots holding keys are to be emptied. |
| `SlotTable.Cluster.TakesIsRebind` | redis-service/redis-5.0.5/src/cluster.c:1568-1585 | The table update is the claim step of the merge model. |
| `SlotTable.Cluster.SetMaster` | redis-service/redis-5.0.5/src/cluster.c:3932-3948 | A node that becomes a replica closes its open slots if it was a master. |
| `SlotTable.Cluster.FailoverReplaceYourMaster` | redis-service/redis-5.0.5/src/cluster.c:2908-2936 | A promoted replica owns exactly its old master's slots, the old master none, and everything agrees. |
| `SlotMerge.OnlyUpwards` | redis-service/redis-5.0.5/src/cluster.c:1558-1592 | A slot changes hands exactly when it is claimed, not being imported, and free or known under a strictly smaller epoch, and then to the claimant. |
| `SlotMerge.HearRaisesEpoch` | redis-service/redis-5.0.5/src/cluster.c:1708-1713 | Hearing a claim raises the epoch known of its sender and no other. |
| `SlotMerge.SkippedScanIsIdle` | redis-service/redis-5.0.5/src/cluster.c:1931-1943 | Skipping the scan when the claimed slots are those already known changes nothing. |
| `SlotMerge.MergeFindsHighest` | redis-service/redis-5.0.5/src/cluster.c:1530-1590 | From an unassigned table every slot not being imported ends with the highest-epoch claimant among the masters heard, or nobody. |
| `SlotMerge.MergeIsConfluent` | redis-service/redis-5.0.5/src/cluster.c:1708-1713 | Any two sequences of packets from the same masters, in any order and with any repetition, give the same table. |
| `Blocked.Server.BlockForKeys` | redis-service/redis-5.0.5/src/blocked.c:497-539 | The client is appended once to the list of every key it waits for, its own key set is those keys, and index, queue and counter invariants hold. |
| `Blocked.Server.UnblockClientWaitingData` | redis-service/redis-5.0.5/src/blocked.c:543-576 | The client leaves exactly the lists it was in, emptied lists are removed, and the index agrees; the asserted list is always there. |
| `Blocked.Server.UnblockClient` | redis-service/redis-5.0.5/src/blocked.c:162-182 | The client is unblocked, uncounted and queued for reprocessing unless it already is, and all invariants hold. |
| `Blocked.Server.QueueForReprocessing` | redis-service/redis-5.0.5/src/blocked.c:151-158 | The queue stays duplicate-free and equal to the flagged clients. |
| `Blocked.Server.ProcessUnblockedClients` | redis-service/redis-5.0.5/src/blocked.c:112-132 | The queue is emptied, its flags cleared, and the clients resumed are the queued ones not blocked anew, in queue order. |
| `Blocked.Server.SignalKeyAsReady` | redis-service/redis-5.0.5/src/blocked.c:585-606 | A key is queued once, and only if somebody waits for it and it is not queued already. |
| `Blocked.Server.ServeClientBlockedOnList` | redis-service/redis-5.0.5/src/t_list.c:628-683 | The element goes to the client or to the head of the target list; a target of the wrong type is refused; a list created by the push is signalled if somebody waits for it. |
| `Blocked.Server.ServeOne` | redis-service/redis-5.0.5/src/blocked.c:289-312 | One pop: the database afterwards is that of the serving specification, the client is unblocked and gets the matching reply, and nobody is left starving. |
| `Blocked.Server.ServeWaiters` | redis-service/redis-5.0.5/src/blocked.c:272-317 | The clients served are the list-blocked ones in queue order up to where the list runs out; the others keep their order at the tail; the loop never looks at an emptied waiter list. |
| `Blocked.Server.HandleKey` | redis-service/redis-5.0.5/src/blocked.c:265-325 | After a key is handled either its list is gone or nobody blocked on a list waits for it; each client served got one reply, and lists and replies hold what the lists held. |
| `Blocked.Server.HandleClientsBlockedOnKeys` | redis-service/redis-5.0.5/src/blocked.c:246-325 | The nested loops end, no ready key is left, and no client blocked on a list waits for a list that has elements, chains of BRPOPLPUSH included; exactly the clients unblocked got a reply, one each, and no element is lost or duplicated over all rounds. |
| `Blocked.Server.SomeCover` | redis-service/redis-5.0.5/src/blocked.c:246-325 | The list of keys over which the handler's elements are counted exists in every state. |
| `Blocked.Server.BlockingPop` | redis-service/redis-5.0.5/src/t_list.c:686-740 | The first key present is popped at the asked end, the list deleted if emptied and the element replied, or the type error given; the client blocks exactly when no key is present; nobody starves. |
| `Blocked.Server.PushElement` | redis-service/redis-5.0.5/src/db.c:173-182 | A push keeps the no-starvation invariant because a list it creates is signalled. |
| `Blocked.KeepPrefix` | redis-service/redis-5.0.5/src/blocked.c:277-317 | The clients served after any number of rounds are a prefix of the eligible ones in queue order. |
| `ListServing.ServingConserves` | redis-service/redis-5.0.5/src/t_list.c:628-683 | However many clients are served, the elements in all lists and those delivered add up to the elements before. |
| `ListServing.PushBack` | redis-service/redis-5.0.5/src/blocked.c:305-309 | Undoing a pop at the same end restores the list. |
| `ListServing.PopConserves` | redis-service/redis-5.0.5/src/t_list.c:697-725 | A pop takes the element replied out of the lists and no other. |
| `ListServing.HeadPopsInOrder` | redis-service/redis-5.0.5/src/blocked.c:289-300 | Clients popping from the head get the front elements of the list in order. |
| `Popcount.RedisPopcount` | redis-service/redis-5.0.5/src/bitops.c:40-92 | For every buffer, length and starting alignment the result is the sum of the set bits of all bytes. |
| `Popcount.SevenWords` | redis-service/redis-5.0.5/src/bitops.c:53-86 | The twenty-eight byte block is counted exactly. |
| `Popcount.CountedTotal` | redis-service/redis-5.0.5/src/bitops.c:66-79 | After the three steps every byte lane of a word holds the number of bits set in its byte. |
| `Popcount.Accumulate` | redis-service/redis-5.0.5/src/bitops.c:80-86 | Adding another word of counts adds lane by lane without carries, up to 56 per lane. |
| `Popcount.GatherLanes` | redis-service/redis-5.0.5/src/bitops.c:80-86 | The multiplication puts the sum of the four lanes, at most 224, in the top byte. |
| `Bitpos.RedisBitpos` | redis-service/redis-5.0.5/src/bitops.c:101-186 | The word-skipping search returns the least matching position; without a match -1 for ones and the length in bits for zeros. |
| `Bitpos.ScanWord` | redis-service/redis-5.0.5/src/bitops.c:172-186 | The bit scan always finds a match, so the panic is unreachable. |
| `Bitpos.FirstIsUnique` | redis-service/redis-5.0.5/src/bitops.c:94-100 | That specification fixes the result. |
| `Bitfield.SetUnsignedBitfield` | redis-service/redis-5.0.5/src/bitops.c:209-222 | In place, the field's bits become those of the value and every other bit of the string is unchanged. |
| `Bitfield.GetUnsignedBitfield` | redis-service/redis-5.0.5/src/bitops.c:229-241 | The loop returns the number the field's bits spell. |
| `Bitfield.GetSignedBitfield` | redis-service/redis-5.0.5/src/bitops.c:243-263 | The same, read as two's complement of that width. |
| `Bitfield.GetPadded` | redis-service/redis-5.0.5/src/bitops.c:1091-1121 | Reading through the zeroed nine-byte buffer gives the field, signed or unsigned, of the string read as zero beyond its end. |
| `Bitfield.BitLayout` | redis-service/redis-5.0.5/src/bitops.c:209-222 | Bit 8 i + k of a string is bit 7 - k of byte i. |
| `Bitfield.GetAfterSet` | redis-service/redis-5.0.5/src/bitops.c:209-241 | Getting what was set gives the value modulo two to the width. |
| `Bitfield.OtherFieldsKept` | redis-service/redis-5.0.5/src/bitops.c:209-222 | A field that does not overlap keeps its value. |
| `Bitfield.SignedRoundTrip` | redis-service/redis-5.0.5/src/bitops.c:224-263 | A value within the signed range comes back unchanged. |
| `BitfieldOps.SetSignedBitfield` | redis-service/redis-5.0.5/src/bitops.c:224-227 | Converting to unsigned first stores the same bits. |
| `BitfieldOps.UnsignedCheck` | redis-service/redis-5.0.5/src/bitops.c:288-323 | The check is zero exactly when value and sum fit; otherwise the limit is the sum modulo the width or, saturating, the maximum if value or sum is above it and else zero. |
| `BitfieldOps.SignedCheck` | redis-service/redis-5.0.5/src/bitops.c:325-375 | The same for signed fields and a value within range. |
| `BitfieldOps.SignedCheckOfValue` | redis-service/redis-5.0.5/src/bitops.c:325-375 | For any 64-bit value: what does not fit is always recognized, but saturation goes to the maximum also when the distance to the maximum overflows. |
| `BitfieldOps.UnsignedIsIdealExactly` | redis-service/redis-5.0.5/src/bitops.c:1058-1087 | SET and INCRBY on unsigned fields store the exact number when it fits, and else what WRAP, SAT or FAIL promises, if and only if the operation is not a saturating SET of a negative argument. |
| `BitfieldOps.SaturatesUpwards` | redis-service/redis-5.0.5/src/bitops.c:288-323 | SET u8 of -1 with OVERFLOW SAT stores 255. |
| `BitfieldOps.SignedIsIdealExactly` | redis-service/redis-5.0.5/src/bitops.c:1028-1057 | The same for signed fields if and only if the operation is not a saturating SET whose argument is too far below the maximum for a 64-bit difference. |
| `BitfieldOps.SaturatesTheWrongWay` | redis-service/redis-5.0.5/src/bitops.c:325-346 | SET i8 of the smallest 64-bit integer with OVERFLOW SAT stores 127. |
| `BitfieldOps.ExecuteUnsigned` | redis-service/redis-5.0.5/src/bitops.c:1058-1087 | The operation stores that number in place, or nothing on FAIL, and replies with the old value for SET and the new one for INCRBY. |
| `BitfieldOps.ExecuteSigned` | redis-service/redis-5.0.5/src/bitops.c:1028-1057 | The same for signed fields. |
| `BitfieldOps.ReadsBack` | redis-service/redis-5.0.5/src/bitops.c:1028-1087 | Reading a field of either sign back after the store of SET or INCRBY gives the number asked for, or what the policy promises of it, outside the two faults of saturation. |
| `OrderedIndex.InsertSorted` | redis-service/redis-5.0.5/src/db.c:1481-1482 | Inserting keeps the index ordered and adds exactly that entry. |
| `OrderedIndex.RemoveSorted` | redis-service/redis-5.0.5/src/db.c:1483-1485 | Removing keeps the index ordered and removes exactly that entry. |
| `SlotKeys.EntryOrder` | redis-service/redis-5.0.5/src/db.c:1478-1480 | Entries sort by slot before anything else, because the slot is written most significant byte first. |
| `SlotKeys.Database.SlotToKeyUpdate` | redis-service/redis-5.0.5/src/db.c:1470-1487 | Counter and index follow the key set by one key. |
| `SlotKeys.Database.DbAdd` | redis-service/redis-5.0.5/src/db.c:173-182 | A new key is stored and indexed; counters, index and expiries agree with the dictionary. |
| `SlotKeys.Database.DbOverwrite` | redis-service/redis-5.0.5/src/db.c:189-206 | Overwriting keeps key set, index and expiry. |
| `SlotKeys.Database.DbDelete` | redis-service/redis-5.0.5/src/db.c:271-281 | The key, its expiry and its index entry go together; the result tells whether it was there. |
| `SlotKeys.Database.SetKey` | redis-service/redis-5.0.5/src/db.c:216-225 | The key holds the new value without expiry, whether it was absent, present or expired. |
| `SlotKeys.Database.SetExpire` | redis-service/redis-5.0.5/src/db.c:1076-1088 | Expiries stay a subset of the dictionary. |
| `SlotKeys.Database.RemoveExpire` | redis-service/redis-5.0.5/src/db.c:1065-1070 | The expiry is removed and the result tells whether there was one. |
| `SlotKeys.Database.ExpireIfNeeded` | redis-service/redis-5.0.5/src/db.c:1167-1191 | Exactly an expired key is deleted, from dictionary, expiries and index. |
| `SlotKeys.Database.CountKeysInSlot` | redis-service/redis-5.0.5/src/db.c:1547-1549 | The counter is the number of stored keys that hash to the slot. |
| `SlotKeys.Database.GetKeysInSlot` | redis-service/redis-5.0.5/src/db.c:1507-1522 | At most the asked number of keys, all of that slot, each once; fewer only when they are all. |
| `SlotKeys.Database.DelKeysInSlot` | redis-service/redis-5.0.5/src/db.c:1526-1545 | The loop ends, exactly the keys of the slot are removed with their expiries, and their number is returned. |
| `Routing.GetNodeByQuery` | redis-service/redis-5.0.5/src/cluster.c:5452-5622 | The nested loops over a transaction's commands and keys decide as the specification over all keys at once does, early errors included. |
| `Routing.KeylessIsServed` | redis-service/redis-5.0.5/src/cluster.c:5452-5478 | A node that does not redirect, EXEC outside a transaction and a request without keys are served here. |
| `Routing.KeyOfRequest` | redis-service/redis-5.0.5/src/cluster.c:5488-5505 | Every key of every command of a request is looked at. |
| `Routing.ServedHereExactly` | redis-service/redis-5.0.5/src/cluster.c:5560-5622 | A request with keys is accepted here if and only if its keys share one bound slot, the cluster is up, and one of the listed cases of ownership, migration, import with ASKING, MIGRATE or read-only replica holds. |
| `Routing.RedirectsExactly` | redis-service/redis-5.0.5/src/cluster.c:5584-5622 | MOVED and ASK to a node are given if and only if it is the owner, another node, or the node our own slot is migrating to with a key missing, and none of the exceptions for import, MIGRATE and read-only replicas applies. |
| `Routing.TurnedAwayExactly` | redis-service/redis-5.0.5/src/cluster.c:5505-5604 | An unbound slot, keys in several slots, a cluster that is down and TRYAGAIN are answered if and only if the conditions stated hold. |
| `Bio.QueueIsSound` | redis-service/redis-5.0.5/src/bio.c:131-247 | In every interleaving the counter is the queue length whenever the lock is free, jobs run once each in submission order, and a client reading zero knows that every job submitted before has finished. |
| `Bio.StepKeepsInv` | redis-service/redis-5.0.5/src/bio.c:145-215 | Every single access by any thread keeps: one lock holder, the counter off by one only inside a critical section, the job taken before unlocking still at the head, and what ran being a prefix of what was submitted. |
| `Bio.PendingUntilDone` | redis-service/redis-5.0.5/src/bio.c:219-251 | A submitted job that has not finished keeps the counter above zero for everyone who can read it. |
| `Bio.WorkerDrains` | redis-service/redis-5.0.5/src/bio.c:143-230 | With no client holding the lock the worker by itself runs every job there is, in order, and brings the counter to zero. |
| `Bio.ClientSubmits` | redis-service/redis-5.0.5/src/bio.c:131-143 | An idle client can submit a job when the lock is free; it is queued last and counted. |
| `Bio.ClientReads` | redis-service/redis-5.0.5/src/bio.c:237-247 | An idle client can read the counter; waiting, it sleeps exactly when jobs are pending. |
| `Bio.SleeperReturns` | redis-service/redis-5.0.5/src/bio.c:237-247 | A sleeper that is woken gets the lock and returns when it is free. |

## Left out

- Streams, modules, RDB preambles, DUMP, RESTORE and the sockets of MIGRATE: they depend on code that is not part of this model.
- Gossip, failure reports, replica migration, rank and timing heuristics of elections beyond the order they impose on steps.
- CLUSTER subcommands that edit the slot table by hand, and the cluster configuration file.
- Replicas as servers of the append only file: executions are those of a master.
- CONFIG SET appendonly at run time, and the rewrite with the append only file switched off.
- Reference counting, logging, statistics, latency sampling and memory limits.
- Dictionaries, linked lists and the radix tree themselves: they are maps, sequences and an ordered sequence here.
- The hash of a key: it is a parameter.
- The application code around the server (web API, contracts, user interface): thin wrappers over services that are not part of this model.
- Commands other than those named are a parameter of the dataset model; scores of sorted sets are kept as text, and ZADD has no options.
- Blocked.Server.HandleClientsBlockedOnKeys: does not serve sorted sets and streams, whose branches repeat the list branch with other data; one database.
- Blocked.Server.ProcessUnblockedClients: does not process the input of the clients it resumes.
- Blocked.Server.BlockingPop: leaves out the timeout, the answer inside a transaction, and the LPOP or RPOP propagated for a pop.
- SlotTable.Cluster.DelNode: leaves out failure reports and the lists of replicas kept by masters.
- SlotTable.Cluster.UpdateSlotsConfigWith: names the slots whose keys are to be deleted; deleting them is SlotKeys.Database.DelKeysInSlot.
- RewriteBuffer.Buffer.Append: the bytes of a block are a sequence, so moving them within the block is not modelled byte by byte.
- Flush.AofWrite: a call that returns zero for ever is not modelled; each answer of the system is consumed once.
- Feed.ExecuteIsFaithful: the execution of commands is modelled on values, with the loop of DEL as recursion; only their effect on one database and what they propagate is captured.
- Handshake.SwitchExactly: the child's snapshot is the bytes it would write undisturbed; that it writes them is RewriteAppendOnlyFileRio of Snapshot.
- SlotTable.Cluster.AddSlot: slot arrays and bitmaps are sequences the methods reassign, so writes into the arrays in place are not captured.
- Blocked.Server.ServeClientBlockedOnList: leaves out the commands propagated to the log and to replicas.
- CommandLog.LoadAppendOnlyFile: recognizes an RDB preamble and stops there.
- Bitfield.GetSignedBitfield: width 64 is excluded, where the shift of the source is undefined.
- Bitfield.GetPadded: the same for signed fields.
- Crash.CrashExactly: runs hold no transactions; those are covered at the level of commands by RecoveryIsDurable of CommandLog.
- Popcount.RedisPopcount: the table of bit counts is a function, and 32-bit addition is named so that lanes can be reasoned about.
- Bio.QueueIsSound: fairness of the scheduler is not modelled; conditions may wake threads at any time.
- Routing.GetNodeByQuery: the keys of each command are given; extracting them from arguments is not modelled.
