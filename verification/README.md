# Formal models of SuperScalar

Dafny models of the parts of SuperScalar where a mistake costs money or a message: the
payment channel and its commitment transactions, compact block filters, the encrypted
transport, the text codecs, and two counters.  Every model does what the C code does, with
its constants, integer widths, buffer sizes and error returns; the theorems are about every
input, every run or every reachable state.  `dafny verify dfyconfig.toml` checks the whole
project.

## Layout

- `Channel.dfy` is the channel as a value with its operations, `ChannelObject.dfy` the same
  as a class over arrays that are compacted and grown in place, `CommitmentBuilder.dfy` the
  transaction builder and the CLTV watchdog.  `ChannelLaws.dfy` (conservation, shape of
  reachable states, commitment totals), `ChannelReserve.dfy` (the reserve),
  `ChannelMirror.dfy` (two ends), `ChannelTimeouts.dfy` (timeout sweeps) and
  `ChannelClaims.dfy` (who is paid, and against what) hold the theorems.
- `Tapscript.dfy` is the leaf scripts and the opcodes they use, with the lock rules of BIP 65,
  BIP 68 and BIP 112; `Spending.dfy` says who can spend each output of a commitment, and when.
- `PsSigning.dfy`: the client's look-up, record, release protocol for pseudo-Spilman leaves,
  across crashes that keep only the database.
- `GolombRice.dfy`, `Varint.dfy`, `Bip158.dfy`: compact filters, built and scanned.
- `NoiseTerms.dfy`, `Handshake.dfy`, `Transport.dfy`: BOLT #8 over a free term algebra.
- `Bits.dfy`, `Regroup.dfy`, `Bech32.dfy`, `Bech32m.dfy`, `Bech32Vectors.dfy`: bit streams,
  8/5-bit regrouping, the polymod register, bech32m strings, the register on machine words and
  published strings.
- `Bolt11Hrp.dfy`, `Bolt11Fields.dfy`, `Bolt11Cursor.dfy`, `Bolt11.dfy`: invoices.
- `WordList.dfy`, `Bip39.dfy`: mnemonics.
- `DwState.dfy`: the Decker-Wattenhofer odometer.  `CircuitBreaker.dfy`: per-peer limits.

Bit-level code is specified over `Bits.Expand`, the bit stream of a sequence of groups.
Readers shift and mask, and `Bits.ReprAt` ties that to the stream; `|=` sets one bit.

## Where a promise does not hold

The code is kept as it is.  Each case has a lemma with the exact condition, and an input that
shows it where the condition alone does not.

- The per-HTLC fee is taken after the reserve is checked, so the funder can end below it, also
  for an HTLC the peer offers (`FunderBelowReserve`, `FunderPaysForPeer`,
  `FunderReserveExactly`, `FunderHoldsExactly`); the other side loses it only to direct moves
  (`ReserveStepExactly`, `ReserveKept`).
- One timeout pass skips the entry that slides into a freed slot (`PassSkipsNeighbour`,
  `OnePassSuffices`); repeated passes clear everything (`RepeatClears`).  An expired entry fails
  the first entry that carries its id, which may be an unexpired one when ids come off the wire
  (`SharedIdReached`, `OnePassExactly` for one call, `OnlyExpiredExactly` for repeated ones).
- A sweep that fails two entries makes two commitments, and then neither end has the other's
  point (`SweepAgreesExactly`).
- The success leaf of a PTLC asks for a preimage of the payment point's own encoding, so the
  holder of the point's secret cannot claim it, and the claim the code signs carries no
  preimage at all (`PtlcExactly`, `PtlcClaimFails`).
- A delay of 2^16 or more is not that many blocks (`DelayExactly`).
- The client's conservation check compares with the base fee at the current rate, while the
  comment above it speaks of the fee deducted at opening (`CheckTripsOnFeeChange`,
  `CheckExactly`).
- One chaining key serves both directions of a connection, so rotating messages that cross
  end it (`FullDuplexFails`, `RunExact`).  src/bolt8.c puts nonces on the wire
  little-endian and starts from the prologue "lightning"; the header's comments say otherwise.
- A read rotates its key before it looks at the header, so a bad frame at the moment both
  directions rotate spoils the connection (`BadHeaderParts`, `BadHeaderExactly`).
- The record of a signed parent is written before release, but its return value is not
  checked, and a failed lookup counts as no record (`LostWriteSignsTwice`,
  `LostReadSignsTwice`, `RequestExactly`, `TwiceExactly`, `SafeExactly`).
- The filter decoder caps quotients at 2^30 and the encoder does not
  (`HugeFilterMisses`, `NoFalseNegativesExactly`).
- The bech32m encoder accepts payloads whose symbols and checksum together exceed what the
  decoder accepts (`LongPayloadLost`, `RoundTrip`).
- Invoice amounts with units n and p are scaled differently on write and read
  (`TenMsatLost`, `AmountExactly`); tb4 is read as tb (`TestnetFour`, `NetworkExactly`); expiry, final CLTV,
  long descriptions, empty metadata and hints outside one to six hops do not come back
  (`ExpiryLost`, `CltvLost`, `HintsLost`, `RoundTripExactly`).  Above 1024 groups the invoice
  checksum is constant (`LongInvoiceUnnoticed`, `OneSymbolNoticed`).
- BOLT #11 gives other tags to expiry, final CLTV, description hash and features, and
  multipliers a thousand times larger; the code is self-consistent only
  (`StandardTags`, `UnitsExactly`, `MicroExample`).
- The odometer's 32-bit total and 16-bit delays hold only within bounds (`TooManyStates`, `AllVisited`,
  `TooManyBlocks`, `NewestWinsExactly`).
- The breaker's cap on the pending amount is tested on a 64-bit sum that may wrap, so what is
  really outstanding may pass it (`CapWraps`, `AcceptExactly`, `AmountCapExactly`).
- The tokens earned are a 32-bit product of hours and rate, so after a long silence an empty
  bucket may stay empty (`HoursLost`, `HourFillsExactly`).
- Within an hour of the 32-bit end of time a refill fills the bucket every second, and a check
  may fill it while the mark goes back (`EndOfClock`, `RefillLawExactly`, `EndOfClockCheck`,
  `TopUpLawExactly`).
- src/bip39.c writes the first byte of the phrase buffer before it looks at its size, so the
  buffer needs a byte even when the size given is 0 (`EntropyToMnemonic`).

## Parameters and symbols

- SHA-256 in the channel is a free constructor; in mnemonics its first byte is a parameter.
  SipHash, signing and public-key recovery are parameters; a signature is assumed to recover
  some key only where a lemma says so.
- In scripts a signature, a hash and a key are stack elements of their own kind; a party can
  sign with exactly the keys whose secrets it has, and a revocation key takes two.
- Keys, points and derived keys of the channel, and all of Diffie-Hellman, HKDF and AEAD in the
  transport, are terms; equal terms stand for equal bytes.
- Random secrets come from a parameter.  Allocation succeeds.  Time and block height are
  parameters.

## Model

| member | source | states |
|---|---|---|
| `ChannelLaws.StakeStep` | src/channel.c:1658-1853 | each operation, accepted or refused, moves the two stakes (balance plus what open HTLCs and reserved fees hold back) by exactly the fulfilled amount or the direct move, and nothing wraps |
| `ChannelLaws.RunStakes` | src/channel.c:1658-1853 | over every run the stakes move by the sum of those effects |
| `ChannelLaws.Conservation` | src/client.c:73-94 | over every run of adds, fulfils, fails, moves, fee-rate changes, freezes and timeout sweeps, local + remote + active (amount + fee) never changes, for any total below 2^64 |
| `ChannelLaws.SettledBalances` | src/channel.c:1658-1853 | whenever no HTLC is active, each balance is the opening balance plus or minus exactly what was fulfilled or moved |
| `ChannelLaws.PaidExactly` | src/channel.c:1780-1794 | paying out an active HTLC and returning its fee never wraps a 64-bit balance |
| `ChannelLaws.ShapeStep` | src/channel.c:481-488 | every operation keeps: only live, non-dust entries; secrets for 0 .. commitment + 1; and each that makes a commitment appends exactly one secret |
| `ChannelLaws.RunShape` | src/channel.c:435-496 | over every run those hold and no stored secret ever changes |
| `ChannelLaws.CommitmentTotals` | src/channel.c:664-838 | no HTLC is trimmed, and the outputs of a commitment pay out the channel total minus the reserved fees, plus the PTLCs |
| `ChannelLaws.CheckStays` | src/client.c:79-94 | the conservation check keeps passing over every run whose last fee rate is the one it started with |
| `ChannelLaws.RunRate` | src/channel.c:991-994 | after every run, sweeps included, the fee rate is the last one set |
| `ChannelLaws.CheckExactly` | src/client.c:90-94 | known before a run: the check passes after it if and only if the money at the start is what the last rate set makes it expect |
| `ChannelLaws.CheckTripsOnFeeChange` | src/client.c:90-94 | a balanced channel fails the check after the rate moves from 1000 to 2000 |
| `ChannelReserve.AddReserveExactly` | src/channel.c:1699-1741 | the payer of an accepted add keeps the reserve if and only if it is not the funder or can spare the fee too |
| `ChannelReserve.FunderReserveExactly` | src/channel.c:1699-1741 | after an accepted add in either direction the funder holds the reserve if and only if it could spare the fee beside it, and the amount too if it is the payer |
| `ChannelReserve.FunderBelowReserve` | src/channel.c:1730-1741 | a funder left below the reserve by one add of its own |
| `ChannelReserve.FunderPaysForPeer` | src/channel.c:1730-1741 | an HTLC the peer offers takes 43 satoshi from the funder, below the reserve and down to nothing |
| `ChannelReserve.ReserveStepExactly` | src/channel.c:1658-1938 | one operation keeps the reserve of the side that does not fund the channel if and only if it is not a direct move that takes it |
| `ChannelReserve.ReserveKept` | src/channel.c:1658-1938 | over every run whose direct moves spare it, that side keeps its reserve |
| `ChannelReserve.FunderStepExactly` | src/channel.c:1658-1938 | one operation keeps the reserve of the funder if and only if it is no accepted add and no direct move that takes it |
| `ChannelReserve.FunderHoldsExactly` | src/channel.c:1658-1938 | over every run the funder holds the reserve before and after every step if and only if every step spares it |
| `ChannelReserve.OthersGrow` | src/channel.c:1761-1853 | fulfilling, failing, sweeping, freezing and setting the rate leave both balances at least what they were |
| `ChannelReserve.AddExactly` | src/channel.c:1658-1741 | an add is accepted if and only if it meets the stated limits: 483 HTLCs, 546 satoshi of dust, 5000 of reserve, 43 virtual bytes of fee from the funder |
| `ChannelMirror.MirrorStep` | src/channel.c:1658-1853 | matched operations on mirror-image channels are accepted or refused together and leave mirror images |
| `ChannelMirror.RemoteViewMirrors` | src/channel.c:874-939 | the swapped copy builds, output by output and in order, the transaction the other end builds for itself |
| `ChannelMirror.CacheStarts` | src/channel.c:506-529 | the first two points fill the two slots |
| `ChannelMirror.CacheAdvances` | src/channel.c:506-529 | storing the revoked secret and the next point keeps the cache exact, and the current point is known meanwhile |
| `ChannelMirror.CacheIsFullMap` | src/channel.c:531-555 | two slots and the revealed secrets answer like a map of every point received so far, and of no other |
| `ChannelMirror.PairStarts` | src/channel.c:286-292 | two new mirror-image channels, once their first points are exchanged, are in step |
| `ChannelObject.OpeningsInStep` | src/channel.c:186-292 | two channels opened with crossed configurations, one made the funder, are in step once their first points are exchanged |
| `ChannelMirror.PairStepOk` | src/client.c:379-391 | after a matched operation that makes at most one commitment, and again after the exchange of revocations, both ends build the same two commitment transactions |
| `ChannelMirror.AddOverWire` | src/client.c:401-424 | one end adds and the other is told the amount and the id over the wire: the same as a matched add, and they stay mirror images |
| `ChannelObject.OpenAsFunder` | src/lsp_channels.c:278-289 | the channel the LSP opens is a new one that it funds itself |
| `ChannelMirror.PairRun` | src/channel.c:602-939 | over every matched run in which no sweep fails two entries at once, both ends stay mirror images, agree on both transactions and can answer for every point announced |
| `ChannelMirror.SweepAgreesExactly` | src/channel.c:1835-1853 | after a matched sweep both ends still agree on both transactions if and only if it fails at most one entry, a number known from the list and the height |
| `ChannelTimeouts.SweepResult` | src/channel.c:1835-1853 | whatever the ids: a sweep does nothing when the height regressed; otherwise it leaves `SweepList`, reports the number removed, which is that of the list beside its survivors, and records the height; with distinct ids it leaves exactly the survivors |
| `ChannelTimeouts.SurvivorsKeep` | src/channel.c:1844-1850 | the survivors miss only expired entries and keep the order |
| `ChannelTimeouts.SurvivorsHalve` | src/channel.c:1844-1850 | each pass at least halves the number of expired entries |
| `ChannelTimeouts.OnePassSuffices` | src/channel.c:1844-1850 | one pass clears every expired entry if and only if no two of them are neighbours |
| `ChannelTimeouts.PassSkipsNeighbour` | src/channel.c:1844-1850 | the second of two expired neighbours outlives a pass |
| `ChannelTimeouts.RepeatClears` | src/channel.c:1835-1853 | as many passes as the count has binary digits clear all expired entries and keep the rest, when no expired entry shares its id with an unexpired one before it |
| `ChannelTimeouts.OnlyExpiredExactly` | src/channel.c:1844-1850 | however often the pass is repeated it fails only expired entries, if and only if no expired entry shares its id with an unexpired one before it |
| `ChannelTimeouts.SweepStrikes` | src/channel.c:1835-1853 | a pass, whatever the ids, leaves what is left when each expired entry it looks at strikes the first entry with its id |
| `ChannelTimeouts.OnePassExactly` | src/channel.c:1835-1853 | one call fails only expired entries, if and only if before each unexpired entry stand as many with its id as the pass strikes |
| `ChannelObject.SharedIdReached` | src/client.c:422-424 | from a new channel two HTLCs come off the wire under one id, and the check fails the unexpired one and keeps the expired one |
| `ChannelTimeouts.IdsStep` | src/channel.c:1743-1750 | every operation but an add off the wire keeps the ids increasing along the list, hence distinct |
| `ChannelTimeouts.RunIds` | src/channel.c:1658-1853 | so over every run without adds off the wire |
| `ChannelTimeouts.RunClears` | src/channel.c:1658-1853 | so after every such run enough passes clear exactly the expired entries |
| `ChannelTimeouts.WatchdogAgrees` | src/cltv_watchdog.c:19-58 | something is due at a threshold if and only if the earliest expiry has been reached |
| `ChannelTimeouts.QuietMeansSafe` | src/cltv_watchdog.c:19-42 | when the watchdog counts nothing, no received HTLC is expired at any height up to its threshold |
| `ChannelObject.ChannelObject.constructor` | src/channel.c:186-292 | a new channel stands for `Opening`: balances as given, secrets for commitments 0 and 1, nothing pending |
| `ChannelObject.ChannelObject.EnsurePcsCap` | src/channel.c:435-445 | doubling the secret array changes no stored secret |
| `ChannelObject.ChannelObject.GenerateLocalPcs` | src/channel.c:481-488 | stores one secret and leaves everything else alone |
| `ChannelObject.ChannelObject.GetLocalPcs` | src/channel.c:490-496 | a stored secret, or nothing beyond the last |
| `ChannelObject.ChannelObject.SetRemotePcp` | src/channel.c:506-529 | same number, empty slot, or eviction of the smaller number |
| `ChannelObject.ChannelObject.GetRemotePcp` | src/channel.c:531-555 | a stored point, or one derived from a revealed secret |
| `ChannelObject.ChannelObject.EnsureRevocationsCap` | src/channel.c:447-471 | both revocation arrays grow together and keep their contents |
| `ChannelObject.ChannelObject.ReceiveRevocation` | src/channel.c:557-562 | records one revealed secret |
| `ChannelObject.ChannelObject.GetRevocation` | src/channel.c:575-581 | a revealed secret, or nothing |
| `ChannelObject.CompactArray` | src/channel.c:1646-1656 | the in-place loop leaves exactly the live entries, in order |
| `ChannelObject.ChannelObject.CompactHtlcs` | src/channel.c:1646-1656 | compaction of the HTLC list and nothing else |
| `ChannelObject.ChannelObject.FindActive` | src/channel.c:1763-1771 | the first active entry with an id |
| `ChannelObject.ChannelObject.EnsureHtlcRoom` | src/channel.c:1676-1690 | growing the HTLC array loses nothing and leaves room for one more |
| `ChannelObject.ChannelObject.Reserve` | src/channel.c:1699-1741 | amount, reserve check, fee from the funder, rollback when the funder cannot pay |
| `ChannelObject.ChannelObject.AddHtlc` | src/channel.c:1658-1759 | refusals leave the channel unchanged; otherwise the whole new state and the assigned id |
| `ChannelObject.ChannelObject.AddFromWire` | src/client.c:401-428 | an add whose entry takes over the id from the wire |
| `ChannelObject.ChannelObject.SettleEntry` | src/channel.c:1779-1799 | payout, fee refund, mark, next commitment, compaction |
| `ChannelObject.ChannelObject.FulfillHtlc` | src/channel.c:1761-1800 | the whole new state, or no change when the preimage does not match |
| `ChannelObject.ChannelObject.FailHtlc` | src/channel.c:1802-1831 | the whole new state of a failed HTLC |
| `ChannelClaims.FulfillExactly` | src/channel.c:1761-1777 | a fulfil is accepted if and only if the preimage hashes to the hash of the first live entry with the id |
| `ChannelClaims.FailExactly` | src/channel.c:1802-1811 | a fail is accepted if and only if some live entry carries the id |
| `ChannelClaims.OffersStep` | src/channel.c:1658-1853 | no operation changes the direction, amount or hash of an entry, and only adds bring new ones |
| `ChannelClaims.ClaimsFair` | src/channel.c:1761-1800 | every HTLC paid in any run was offered, and was paid against a presented preimage of its own hash |
| `ChannelClaims.RunClaims` | src/channel.c:1658-1853 | over every run each side gains exactly the HTLC amounts it claims, less those the other claims and direct moves; every claim is fair in that sense |
| `ChannelClaims.NoPreimageNoGain` | src/channel.c:1761-1800 | a side that never presents a preimage of a hash it was offered gains nothing but what is moved to it |
| `ChannelObject.ChannelObject.CheckTimeouts` | src/channel.c:1835-1853 | the loop over the array that shrinks under it, and the count it returns |
| `ChannelObject.ChannelObject.Update` | src/channel.c:1926-1938 | a direct move of balance, refused when the payer lacks it |
| `ChannelObject.ChannelObject.CheckConservation` | src/client.c:79-94 | the 64-bit sum over the list compared with funding minus base fee |
| `CommitmentBuilder.CountHtlcs` | src/channel.c:664-670 | the number of HTLC outputs there will be |
| `CommitmentBuilder.CountPtlcs` | src/channel.c:673-679 | the number of PTLC outputs there will be |
| `CommitmentBuilder.FillHtlcs` | src/channel.c:733-783 | writes the HTLC outputs in order, within the room counted |
| `CommitmentBuilder.FillPtlcs` | src/channel.c:786-838 | writes the PTLC outputs in order, within the room counted |
| `CommitmentBuilder.BuildImpl` | src/channel.c:602-856 | count, allocate and fill give exactly `Commitment` |
| `CommitmentBuilder.BuildOwn` | src/channel.c:858-872 | refused while the funding is frozen, else the own commitment |
| `CommitmentBuilder.BuildRemote` | src/channel.c:874-939 | the peer's commitment from a swapped copy, or nothing when the peer's point is unknown |
| `Tapscript.EncodeScriptnum` | src/tapscript.c:11-37 | the push of a 32-bit number |
| `Tapscript.NumBack` | src/tapscript.c:11-37 | a script reads every 32-bit number back as itself, never as a negative one |
| `Tapscript.PushBack` | src/tapscript.c:11-37 | the push leaves exactly the bytes of the number, whatever follows |
| `Tapscript.OpensExactly` | src/tapscript.c:401-513 | a witness opens a leaf if and only if it is a signature by the leaf key, under the preimage where there is a hash, and the locks hold; proved by executing each script opcode by opcode |
| `Spending.CanOpenExactly` | src/tapscript.c:97-126 | a party opens a leaf if and only if it controls the key, knows the preimage and the locks are over |
| `Spending.OfferedExactly` | src/channel.c:743-753 | an offered HTLC: the peer takes it with the preimage, the owner after expiry and delay, the revocation key at once, and nobody else |
| `Spending.ReceivedExactly` | src/channel.c:753-779 | a received HTLC: the owner takes it with the preimage after the delay, the peer after expiry, the revocation key at once, and nobody else |
| `Spending.PtlcExactly` | src/channel.c:797-835 | a PTLC goes back to its offerer after expiry or to the revocation key; no secret of the payment point claims it |
| `Spending.PtlcClaimFails` | src/channel.c:2669-2765 | the claim the code signs for a PTLC opens no success leaf |
| `Spending.ToLocalExactly` | src/channel.c:641-689 | the own balance: the owner after the delay, the revocation key at once, and nobody else |
| `Spending.ToRemoteExactly` | src/channel.c:690-714 | the peer's balance: the peer's payment key, at once |
| `Spending.LocksInBlocks` | src/tapscript.c:450-473 | what the locks come to in blocks, for heights and delays in range |
| `Spending.DelayExactly` | src/tapscript.c:97-126 | a delay means that many blocks if and only if it is below 2^16 |
| `Spending.OwnerTakes` | src/channel.c:602-847 | the sum the owner can take from its commitment at any moment |
| `Spending.PeerTakes` | src/channel.c:602-847 | the sum the peer can take from it while it is not revoked |
| `Spending.Outputs` | src/channel.c:664-847 | the funding output is spent into the two balances and one output per live HTLC and PTLC of 546 satoshi or more |
| `Spending.BuildsExactly` | src/channel.c:858-872 | over every run an end can build its own commitment if and only if its funding is not frozen |
| `Spending.RevokedForfeits` | src/channel.c:602-847 | whoever has the revocation and payment keys and the commitment secret can take every output at any moment |
| `Spending.OldCommitmentsForfeit` | src/channel.c:602-847 | over every matched run, once an end has moved on, the other can take every output of the commitment left behind |
| `CommitmentBuilder.Watchdog.Check` | src/cltv_watchdog.c:19-37 | counts received HTLCs due by the 32-bit threshold and latches the alarm |
| `CommitmentBuilder.Watchdog.Expire` | src/cltv_watchdog.c:39-42 | a timeout sweep of the watched channel |
| `CommitmentBuilder.Watchdog.EarliestExpiry` | src/cltv_watchdog.c:44-58 | the earliest expiry among received HTLCs |
| `PsSigning.AtMostOneSignature` | src/client.c:3881-3948 | over every run of proposals, stopped or crashed anywhere, at most one signature for a parent is released, when the database does its part in the requests that go on to release one for it |
| `PsSigning.RequestExactly` | src/client.c:3881-3948 | a request keeps every safe state safe if and only if it is about another parent, stops before release, or is looked up, computed and recorded |
| `PsSigning.TwiceExactly` | src/client.c:4071-4258 | and exactly such a request, made twice, releases at most one signature |
| `PsSigning.SafeExactly` | src/client.c:4227-4258 | a state guarantees that such requests release no second signature if and only if a database is attached and, if one was released, its row is there |
| `PsSigning.SignedExactly` | src/client.c:3881-3948 | with a working database a parent without a row is signed for exactly once if the first request past the check is not stopped, and otherwise never |
| `PsSigning.RecordedIsFinal` | src/client.c:3646-3661 | a recorded parent is never signed for again, as long as lookups for it that would lead to a release are answered |
| `PsSigning.LostWriteSignsTwice` | src/client.c:4249-4251 | one row that could not be written is enough for two signatures |
| `PsSigning.LostReadSignsTwice` | src/persist.c:1961-1979 | so is one lookup that could not be made |
| `PsSigning.Client.LeafAdvance` | src/client.c:4071-4258 | one invocation, stopped anywhere, has exactly the effect `Handle` on rows and released signatures |
| `Bip158.HashToRange` | src/bip158_backend.c:190-213 | the 32-bit-halves computation is floor(h * F / 2^64), below F, with no intermediate overflow |
| `Bip158.HashAll` | src/bip158_backend.c:494-500 | the hashes of all scripts |
| `GolombRice.DecodeCode` | src/bip158_backend.c:255-271 | wherever a code word stands in a stream, decoding there yields its delta if the quotient is within the cap, and fails otherwise |
| `GolombRice.CodeNumber` | src/bip158_backend.c:342-354 | the code word as a number: quotient by 2^19 in unary, a zero, 19 bits |
| `GolombRice.CapIs` | src/bip158_backend.c:255-271 | a code word is read back if and only if its quotient is at most 2^30 |
| `GolombRice.BitReader.ReadBit` | src/bip158_backend.c:234-240 | the next bit, most significant first, or -1 |
| `GolombRice.BitReader.ReadBits` | src/bip158_backend.c:243-252 | the number the next bits spell, or -1 at the end of the stream |
| `GolombRice.BitReader.GolombRiceDecode` | src/bip158_backend.c:255-271 | decodes exactly what `DecodeAt` says, and stops behind the capped run or at the end of the stream when it fails |
| `GolombRice.BitWriter.constructor` | src/bip158_backend.c:314-320 | zeroes its part of the buffer and nothing else |
| `GolombRice.BitWriter.WriteBit` | src/bip158_backend.c:323-330 | appends one bit or reports that the buffer is full |
| `GolombRice.BitWriter.WriteBits` | src/bip158_backend.c:333-339 | appends the low bits of a number, or as many as there is room for |
| `GolombRice.BitWriter.GolombRiceEncode` | src/bip158_backend.c:342-353 | appends the code word, or as much of it as there is room for |
| `Varint.RoundTrip` | src/bip158_backend.c:278-302 | reading undoes writing, with any bytes after it |
| `Varint.Forms` | src/bip158_backend.c:356-377 | the four forms, byte by byte |
| `Varint.Write` | src/bip158_backend.c:356-377 | writes the encoding, or 0 when it does not fit |
| `Bip158.StreamLength` | src/bip158_backend.c:473-482 | all quotients together are at most the quotient of the last value |
| `Bip158.SizeSuffices` | src/bip158_backend.c:473-482 | the advertised size always holds the filter |
| `Bip158.EncodeSorted` | src/bip158_backend.c:512-519 | the loop writes the stream of deltas, exactly when it fits |
| `Bip158.Build` | src/bip158_backend.c:484-525 | the serialised filter, or 0 exactly when it does not fit or there are too many items |
| `Bip158.DecodedStream` | src/bip158_backend.c:412-456 | reading back what was written yields the sorted values before the first over-long quotient |
| `Bip158.Advance` | src/bip158_backend.c:445-446 | the first hash not below the value |
| `Bip158.MergeScan` | src/bip158_backend.c:431-452 | for every stream, count and sorted list, wrapping sums included: found if and only if some hash equals a running sum that no earlier sum exceeded |
| `Bip158.MatchesBelow64` | src/bip158_backend.c:439-452 | while the sums stay below 2^64 that is: some hash equals some running sum |
| `Bip158.MatchAny` | src/bip158_backend.c:412-456 | the same for unsorted scripts, with the guards on count and list |
| `Bip158.ScanFilter` | src/bip158_backend.c:838-851 | header, then the scan |
| `Bip158.FilterRead` | src/bip158_backend.c:838-851 | the reader of a built filter sees its header and the sorted hashes up to the first over-long quotient |
| `Bip158.ScanBuilt` | src/bip158_backend.c:838-851 | a built filter matches if and only if some watched script hashes to a readable value |
| `Bip158.NoFalseNegatives` | src/bip158_backend.c:484-525 | a registry sharing a script with the block always matches, when every quotient is readable |
| `Bip158.NoFalseNegativesExactly` | src/bip158_backend.c:255-353 | no script is missed if and only if every quotient is within the decoder cap |
| `Bip158.HugeFilterMisses` | src/bip158_backend.c:255-271 | a filter of 720 million items that misses its only script |
| `Bip158.OneScript` | src/bip158_backend.c:484-525 | the filter of one script, byte for byte, with 784931 and 2^19 written out |
| `Bip158.LiteralFilter` | src/bip158_backend.c:484-525 | the filter 01 5f d1 10 of a script that hashes to 2^63, and everything it matches |
| `Bip158.ItemLimitExactly` | src/bip158_backend.c:491-491 | the item limit is where 784931 per item stops fitting 64 bits |
| `Bip158.SmallFiltersReadable` | src/bip158_backend.c:255-271 | up to 2^49 / M items the cap is out of reach |
| `Handshake.State.constructor` | src/bolt8.c:132-154 | both ends start from the responder key |
| `Handshake.State.DhAndMix` | src/bolt8.c:116-128 | the shared secret mixed into the chaining key, or nothing changed |
| `Handshake.State.CreateAct` | src/bolt8.c:156-268 | acts 1 and 2 as written, and the hash a refusal leaves |
| `Handshake.State.ProcessAct` | src/bolt8.c:196-303 | acts 1 and 2 as checked, and what a refusal leaves |
| `Handshake.State.CreateAct3` | src/bolt8.c:305-353 | act 3 and the final keys, and the hash a refusal leaves |
| `Handshake.State.ProcessAct3` | src/bolt8.c:355-405 | act 3 as checked, the initiator's key and the final keys, and what a refusal leaves |
| `Handshake.Act1Agrees` | src/bolt8.c:156-229 | after act 1 both ends agree on h, ck and temp key |
| `Handshake.Act2Agrees` | src/bolt8.c:231-303 | after act 2 they still do |
| `Handshake.HonestHandshake` | src/bolt8.c:132-405 | for all static and ephemeral keys the three acts succeed, the responder learns the initiator's key, and sending and receiving keys cross with zero counters |
| `Handshake.ActAcceptsExactly` | src/bolt8.c:196-303 | acts 1 and 2 accept exactly what a writer in an agreeing state could have sent |
| `Handshake.Act3AcceptsExactly` | src/bolt8.c:355-405 | act 3 accepts exactly what the peer makes with some static key, and reports that key |
| `Handshake.WholeTranscript` | src/bolt8.c:132-405 | for all keys: everything hashed and mixed by an honest handshake, in order, its three messages, and the transport keys |
| `Handshake.Act1Transcript` | src/bolt8.c:132-193 | the message of act 1 and the transcript after it, protocol name and prologue included |
| `Handshake.WrongResponderRefused` | src/bolt8.c:196-229 | an initiator is accepted at act 1 if and only if it expects the right responder |
| `Handshake.RetryExactly` | src/bolt8.c:196-229 | after refusing some act 1 a responder can still take an honest one if and only if the refusal came before the mixing |
| `Transport.State.WriteMessage` | src/bolt8.c:421-451 | frame, rotation and counters; refused only above 65535 bytes |
| `Transport.State.ReadMessage` | src/bolt8.c:453-485 | accepted exactly when both parts open and the bytes suffice; a failure leaves the rotation and the count it got to |
| `Transport.BadHeaderHarmless` | src/bolt8.c:453-475 | a read that fails at the header or before it does not change what the next read recovers |
| `Transport.BadHeaderExactly` | src/bolt8.c:409-485 | such a read changes nothing that any later calls at that end give, if and only if it did not rotate or no write rotates before the next whole frame is read |
| `Transport.BadHeaderParts` | src/bolt8.c:409-485 | at two ends that have both used up their keys, a failed read before the next write makes the answer to that write unreadable |
| `Transport.ReadExactly` | src/bolt8.c:453-485 | a read accepts exactly the frames a writer with its key and counter makes |
| `Transport.StreamIs` | src/bolt8.c:409-451 | what message number j of a direction is on the wire: key after j / 500 rotations, nonces 2 (j mod 500) and one more, length high byte first |
| `Transport.CounterAt` | src/bolt8.c:427-432 | the counter reaches its limit exactly after every 500 messages |
| `Transport.HandshakeStarts` | src/bolt8.c:355-405 | the keys an honest handshake leaves are the fresh transport state |
| `Transport.Recv1Exact` | src/bolt8.c:453-485 | a read recovers the message unless it rotates while a rotation of the reader is unread |
| `Transport.StepExact` | src/bolt8.c:421-485 | one event succeeds exactly when it is not crossed, and keeps the invariant |
| `Transport.RunExact` | src/bolt8.c:421-485 | a run of any schedule delivers every message read if and only if no event of it is crossed, over any number of rotations |
| `Transport.QuietAgree` | src/bolt8.c:409-485 | with nothing in flight keys, counters and chaining keys mirror each other |
| `Transport.LockstepNeverCrosses` | src/bolt8.c:409-485 | lock-step runs never cross |
| `Transport.OneWayNeverCrosses` | src/bolt8.c:409-485 | pipelined one-way streams never cross |
| `Transport.OrderlyRunsDeliver` | src/bolt8.c:409-485 | so both deliver from a fresh handshake |
| `Transport.FullDuplexFails` | src/bolt8.c:429-461 | two rotating messages that cross end the connection: one ck serves both directions |
| `Transport.CipherIs` | src/bolt8.c:421-451 | key and nonce of every encryption |
| `Transport.NoncesUnique` | src/bolt8.c:421-451 | in every reachable state no key encrypts two texts under one nonce |
| `Regroup.BytesTo5Bit` | src/bech32m.c:73-92 | the symbols of a byte string, despite the wrapping accumulator; 0 when they do not fit |
| `Regroup.FiveBitToBytes` | src/bech32m.c:96-114 | the bytes of a symbol string with fewer than five spare, zero bits; else 0 |
| `Regroup.To5From5` | src/bech32m.c:73-114 | regrouping back undoes regrouping, for every byte string |
| `Regroup.From5To5` | src/bech32m.c:73-114 | and the other way for every accepted symbol string |
| `Regroup.SameNumber` | src/bech32m.c:73-92 | the symbols spell in base 32 what the bytes spell in base 256, padding behind it |
| `Bech32.Polymod` | src/bech32m.c:30-42 | the register loop computes the polymod |
| `Bech32.Checksum` | src/bech32m.c:45-69 | the checksum over prefix, data and six zeros; zero when the buffer is too small |
| `Bech32.AcceptsExactly` | src/bech32m.c:194-201 | recompute-and-compare accepts exactly the strings whose polymod is the constant |
| `Bech32Vectors.StepBvIs` | src/bech32m.c:32-40 | the register step is the shift, mask and xor of the source on machine words |
| `Bech32Vectors.PolyBvIs` | src/bech32m.c:30-42 | for every symbol string the register ends as the word of the source |
| `Bech32Vectors.DecodesExactly` | src/bech32m.c:155-218 | what bech32m_decode accepts, both ways, with the constant 0x2bc830a3 and the bounds written out, and what it returns |
| `Bech32Vectors.Bip350String` | src/bech32m.c:116-218 | the first valid string of BIP 350, encoded and decoded |
| `Bech32Vectors.Bip173String` | src/bolt11.c:43-68 | a valid string of BIP 173 passes under the other constant |
| `Bech32Vectors.Charset` | src/bech32m.c:14-14 | the character of each symbol |
| `Bech32.OneSymbolApart` | src/bech32m.c:30-42 | two strings of any length that differ in one symbol have different polymods |
| `Bech32.OneErrorDetected` | src/bech32m.c:194-201 | changing one symbol of an accepted string is always rejected |
| `Bech32.AppendedAccepted` | src/bech32m.c:141-150 | the appended checksum is accepted |
| `Bech32m.SplitChecksum` | src/bech32m.c:148-150 | the six groups of a checksum |
| `Bech32m.WriteText` | src/bech32m.c:143-151 | prefix, separator, characters and terminator |
| `Bech32m.EncodeTo` | src/bech32m.c:116-153 | the whole string, or failure on the source's own conditions |
| `Bech32m.FindSeparator` | src/bech32m.c:165-169 | the last separator |
| `Bech32m.ReadSymbols` | src/bech32m.c:180-186 | the symbols of the characters, or failure |
| `Bech32m.CheckAndConvert` | src/bech32m.c:194-217 | checksum, prefix and conversion |
| `Bech32m.DecodeTo` | src/bech32m.c:155-218 | the payload, or failure on the source's own conditions |
| `Bech32m.RoundTrip` | src/bech32m.c:116-218 | decoding undoes encoding, a separator in the prefix included, exactly when the payload has at most 636 bytes |
| `Bech32m.LongPayloadLost` | src/bech32m.c:175-178 | 637 zero bytes are encoded and not decoded |
| `Bech32m.DecodeEncode` | src/bech32m.c:116-218 | every accepted string is, letter case aside, the encoding of what it decodes to |
| `Bech32m.OneCharacterError` | src/bech32m.c:194-201 | changing one data or checksum character is always noticed |
| `Bolt11Hrp.ParseNetwork` | src/bolt11.c:135-187 | network and amount, or failure |
| `Bolt11Hrp.ReadAmount` | src/bolt11.c:160-186 | digits and at most one unit letter, 64 bits wide |
| `Bolt11Hrp.ParseBuild` | src/bolt11.c:135-214 | the prefix built for one of five networks is read back with that network and the amount `Back` |
| `Bolt11Hrp.AmountExactly` | src/bolt11.c:203-206 | an amount survives if and only if it is a multiple of 100 msat |
| `Bolt11Hrp.TenMsatLost` | src/bolt11.c:205-205 | ten millisatoshi are read back as none |
| `Bolt11Hrp.NetworkExactly` | src/bolt11.c:142-157 | a network survives if and only if it is bc, bs, tb, tbs or bcrt |
| `Bolt11Hrp.TestnetFour` | src/bolt11.c:142-157 | tb4 is read as tb |
| `Bolt11Hrp.UnitsExactly` | src/bolt11.c:170-183 | with a multiplier the amount read is a thousandth of what BOLT #11 says, without one all of it |
| `Bolt11Hrp.MicroExample` | src/bolt11.c:170-183 | the standard example lnbc2500u is read as 250000 msat |
| `Bolt11Fields.HopsBack` | src/bolt11.c:381-406 | the hops of a route hint are read back |
| `Bolt11Fields.FieldsBack` | src/bolt11.c:278-289 | every list of tagged fields is read back from its groups |
| `Bolt11Fields.FieldsGood` | src/bolt11.c:491-496 | every field written has a 5-bit tag, a 10-bit length and 5-bit groups |
| `Bolt11Fields.ExpiryBack` | src/bolt11.c:535-546 | the expiry comes back modulo 2^20 |
| `Bolt11Fields.CltvNumber` | src/bolt11.c:548-557 | the final CLTV comes back as `CltvBack`: itself from 0 to 2^15 - 1 |
| `Bolt11Fields.HintsExactly` | src/bolt11.c:566-592 | the hints survive if and only if each has one to six hops |
| `Bolt11Fields.ExpiryLost` | src/bolt11.c:544-544 | an expiry of 2^20 comes back as 0 |
| `Bolt11Fields.CltvLost` | src/bolt11.c:553-555 | final CLTVs of 2^15 and -1 come back as 0 and 31 |
| `Bolt11Fields.HintsLost` | src/bolt11.c:587-591 | an empty hint is lost and one of seven hops comes back empty |
| `Bolt11Fields.FeaturesRead` | src/bolt11.c:372-379 | the feature bits of tag 20, group by group |
| `Bolt11Fields.TagsRead` | src/bolt11.c:291-356 | what tags 1, 4, 5, 6, 16 and 19 set |
| `Bolt11Fields.DescriptionRead` | src/bolt11.c:327-338 | the description ends at its first zero byte |
| `Bolt11Fields.MetadataExactly` | src/bolt11.c:360-371 | metadata of at most 64 bytes is taken, longer is not |
| `Bolt11Fields.HintRead` | src/bolt11.c:381-407 | a hint is appended while there are fewer than eight |
| `Bolt11Fields.OtherTagsSkipped` | src/bolt11.c:286-289 | other tags and fields over 512 groups are skipped |
| `Bolt11Fields.StandardTags` | src/bolt11.c:300-323 | the tags BOLT #11 gives to expiry, final CLTV, description hash and features are not read as such |
| `Bolt11Fields.DefaultsSilent` | src/bolt11.c:535-556 | an hour and 18 blocks are the defaults of the reader and are not written |
| `Bolt11Fields.HopLayout` | src/bolt11.c:566-592 | the 51 bytes of a hop |
| `Bolt11Fields.FieldsRecovered` | src/bolt11.c:278-412 | every field of an encoded invoice, read back |
| `Bolt11Fields.RecoveredExactly` | src/bolt11.c:498-592 | the fields survive if and only if every part is in range |
| `Bolt11Cursor.Writer.WriteBits` | src/bolt11.c:120-132 | the low bits of a number, for as long as the buffer lasts |
| `Bolt11Cursor.Writer.WriteField` | src/bolt11.c:491-496 | tag, length and groups |
| `Bolt11Cursor.WriteBlobs` | src/bolt11.c:498-533 | the first five kinds of field, in order |
| `Bolt11Cursor.ExpiryData` | src/bolt11.c:535-545 | the bytes written for an expiry |
| `Bolt11Cursor.CltvData` | src/bolt11.c:548-556 | the bytes written for a final CLTV |
| `Bolt11Cursor.WriteHint` | src/bolt11.c:568-591 | one route hint: nothing when empty, an empty field when too long |
| `Bolt11Cursor.WriteOthers` | src/bolt11.c:535-592 | the remaining kinds of field, in order |
| `Bolt11Cursor.WriteData` | src/bolt11.c:486-592 | timestamp and all fields |
| `Bolt11Cursor.Reader.ReadBits` | src/bolt11.c:106-117 | a number, or 0 when the groups run out |
| `Bolt11Cursor.ReadHops` | src/bolt11.c:386-405 | as many whole hops as there are, up to eight |
| `Bolt11Cursor.ApplyField` | src/bolt11.c:291-411 | what each tag does to the invoice |
| `Bolt11Cursor.ReadFields` | src/bolt11.c:277-412 | the loop over the fields, cut-short and over-long ones included |
| `Bolt11.EncodeData` | src/bolt11.c:481-596 | the groups, or a count that tells they do not fit |
| `Bolt11.EncodeTo` | src/bolt11.c:469-646 | the whole invoice string, or failure |
| `Bolt11.ReadBody` | src/bolt11.c:261-464 | network, fields, signature and payee |
| `Bolt11.DecodeFrom` | src/bolt11.c:218-465 | the whole invoice, or failure |
| `Bolt11.DecodeEncode` | src/bolt11.c:218-646 | for the five networks every encoded invoice decodes, each part as `Recovered` and `AmountBack` say |
| `Bolt11.RoundTripExactly` | src/bolt11.c:218-646 | the decoded invoice is the encoded one if and only if every part is in range and the amount is absent or a positive multiple of 100 msat |
| `Bolt11.OneSymbolNoticed` | src/bolt11.c:57-68 | a changed symbol is noticed if and only if the string fits the checksum buffer or the symbol is one of the last six |
| `Bolt11.ChecksumExactly` | src/bolt11.c:57-68 | the checksum test: the polymod equation with the constant 1 within the buffer, six zero symbols beyond it |
| `Bolt11.DecodesExactly` | src/bolt11.c:218-275 | what bolt11_decode accepts, both ways, with its bounds written out |
| `Bolt11.DataLayout` | src/bolt11.c:481-503 | timestamp in seven groups, then the payment hash under tag 1 with length 52 |
| `Bolt11.LongInvoiceUnnoticed` | src/bolt11.c:59-61 | 1100 groups of which a changed one goes unnoticed |
| `WordList.Search` | src/bip39.c:12-22 | the binary search finds a word if and only if it is listed |
| `WordList.TokensJoin` | src/bip39.c:98-105 | splitting undoes joining |
| `Bip39.ElevenBits` | src/bip39.c:56-65 | the number eleven bits of the buffer spell |
| `Bip39.IndicesDecode` | src/bip39.c:112-153 | 8-bit to 11-bit repacking and back, checksum included |
| `Bip39.SameNumber` | src/bip39.c:24-66 | the words spell in base 2048 the entropy followed by the leading bits of its hash |
| `Bip39.DecodeThenIndices` | src/bip39.c:112-153 | and the other way for accepted indices |
| `Bip39.EntropyToMnemonic` | src/bip39.c:24-82 | the phrase, or failure on unsupported length or small size, a size of 0 included |
| `Bip39.ReadWords` | src/bip39.c:94-105 | the indices of the first 24 tokens, if all are listed |
| `Bip39.PutIndex` | src/bip39.c:124-133 | ors one index into the buffer |
| `Bip39.PackIndices` | src/bip39.c:119-133 | the bit buffer of a phrase |
| `Bip39.MaskEqual` | src/bip39.c:142-151 | the masked comparison compares the leading bits |
| `Bip39.MnemonicToEntropy` | src/bip39.c:84-154 | the entropy, or 0 |
| `Bip39.RoundTrip` | src/bip39.c:24-154 | mnemonic-to-entropy inverts entropy-to-mnemonic for every supported entropy and valid list, exactly when the buffer holds it |
| `Bip39.Reencode` | src/bip39.c:24-154 | every accepted phrase re-encodes to its own words, the first 24 of them |
| `DwState.Counter.constructor` | src/dw_state.c:36-48 | all layers at 0, the total as a 32-bit product |
| `DwState.Counter.AdvanceLayer` | src/dw_state.c:19-24 | one layer moves unless it is at its last state |
| `DwState.Counter.Step` | src/dw_state.c:50-65 | one tick of the odometer, or refusal |
| `DwState.TickAddsOne` | src/dw_state.c:54-62 | a tick adds one to the number the layers spell, and is refused only at the largest |
| `DwState.RunSpells` | src/dw_state.c:50-65 | over every run the epoch is the number the layers spell, up to the last epoch |
| `DwState.ReachedOnce` | src/dw_state.c:50-65 | each state vector occurs at one epoch at most |
| `DwState.AllVisited` | src/dw_state.c:41-43 | every state vector is visited if and only if there are at most 2^32 |
| `DwState.TooManyStates` | src/dw_state.c:41-43 | two layers of 65537 states: some vector is never reached |
| `DwState.LastEpochIs` | src/dw_state.c:51-52 | the wrapped total never allows an epoch too many |
| `DwState.LaterWins` | src/dw_state.c:9-17 | of two epochs reached the later has the strictly smaller nSequence at the first layer where they differ, when the delays do not wrap |
| `DwState.DelaySteps` | src/dw_state.c:9-12 | the first state waits k - 1 steps, the last none, each one step less than the one before |
| `DwState.NewestWinsExactly` | src/dw_state.c:9-17 | that law holds for all pairs of epochs the counter reaches if and only if only one state is reached, or the step is not 0 and no 16-bit wrap separates the delays of the states reached |
| `DwState.FitsWhenAllReached` | src/dw_state.c:9-17 | when all state vectors are reached the condition is that the longest delay fits 16 bits |
| `DwState.TooManyBlocks` | src/dw_state.c:9-12 | a thousand states of 144 blocks: some later epoch does not confirm first |
| `CircuitBreaker.CappedStep` | src/circuit_breaker.c:65-100 | tokens never exceed the rate, however the product wraps |
| `CircuitBreaker.RateLaw` | src/circuit_breaker.c:91-146 | over every run with fixed limits in which no refill meets the end of the clock: 3600 * (accepted + tokens - initial tokens) <= rate * (time the refill mark moved) |
| `CircuitBreaker.TopUpLawExactly` | src/circuit_breaker.c:91-100 | the bound holds across the refill of a check for every token count if and only if the mark does not wrap around (or it is not due, or the rate is 0) |
| `CircuitBreaker.RefillLawExactly` | src/circuit_breaker.c:135-146 | the bound holds across a refill for every token count if and only if the refill is an hour or more after the mark (or not due, or the rate is 0) |
| `CircuitBreaker.ClocksSuffice` | src/circuit_breaker.c:91-146 | clock readings an hour below 2^32 never meet its end |
| `CircuitBreaker.EndOfClock` | src/circuit_breaker.c:141-144 | an empty bucket full again after one second |
| `CircuitBreaker.EndOfClockCheck` | src/circuit_breaker.c:91-100 | an empty bucket full again by a check before the mark, which moves back |
| `CircuitBreaker.TopUpExactly` | src/circuit_breaker.c:91-100 | a refill brings what the hours since the mark earn, up to the rate |
| `CircuitBreaker.HourFills` | src/circuit_breaker.c:91-100 | an hour after the mark the bucket is full, while hours times rate stay below 2^32 |
| `CircuitBreaker.HourFillsExactly` | src/circuit_breaker.c:91-100 | every bucket is full then if and only if the 32-bit product is at least the rate |
| `CircuitBreaker.HoursLost` | src/circuit_breaker.c:95-98 | an empty bucket that stays empty because the product wraps to 0 |
| `CircuitBreaker.CheckExactly` | src/circuit_breaker.c:81-121 | each verdict, if and only if: refused outside the caps, accepted within them with a token left or earned, a ban asked for otherwise |
| `CircuitBreaker.TokensLeft` | src/circuit_breaker.c:91-117 | over every run with fixed limits only accepted checks take tokens |
| `CircuitBreaker.NeverStarved` | src/circuit_breaker.c:81-121 | from a full bucket no check is refused for want of a token before as many as the rate were accepted |
| `CircuitBreaker.KnownExactly` | src/circuit_breaker.c:37-52 | a peer is listed if and only if it was or fewer than 64 others are |
| `CircuitBreaker.FirstCheck` | src/circuit_breaker.c:37-121 | the first check of an unknown peer, with the default limits written out |
| `CircuitBreaker.PendingLaw` | src/circuit_breaker.c:116-133 | over every run that settles only what is outstanding the pending count is the number of unsettled acceptances, and the pending amount their sum if no accepted check brings it to 2^64 |
| `CircuitBreaker.CapsHold` | src/circuit_breaker.c:102-107 | with fixed limits neither 64-bit counter ever passes its cap |
| `CircuitBreaker.CapWraps` | src/circuit_breaker.c:105-119 | two accepted checks of a new peer after which 2^64 millisatoshi are outstanding and the counter says 0 |
| `CircuitBreaker.AcceptExactly` | src/circuit_breaker.c:105-119 | an accepted amount respects the cap if and only if the 64-bit sum did not wrap |
| `CircuitBreaker.AmountCapExactly` | src/circuit_breaker.c:102-133 | over every run with fixed limits what is really outstanding stays within the cap if and only if no accepted check brings the sum to 2^64 |
| `CircuitBreaker.Isolated` | src/circuit_breaker.c:26-52 | over every run a listed peer ends as if the other peers were not there |
| `CircuitBreaker.ApplySound` | src/circuit_breaker.c:37-52 | at most 64 peers, none twice |
| `CircuitBreaker.PeerGuarantees` | src/circuit_breaker.c:81-146 | for a peer of the shared table: the rate, the count and its cap over every run, and the amount and its cap if and only if no accepted check brings the sum to 2^64 |
| `CircuitBreaker.Breaker.constructor` | src/circuit_breaker.c:56-63 | an empty table with the default limits |
| `CircuitBreaker.Breaker.FindPeer` | src/circuit_breaker.c:26-35 | the first slot with the key |
| `CircuitBreaker.Breaker.FindOrCreate` | src/circuit_breaker.c:37-52 | an existing slot, a new one with defaults, or none when full |
| `CircuitBreaker.Breaker.SetPeerLimits` | src/circuit_breaker.c:65-79 | limits set and tokens cut to the new rate |
| `CircuitBreaker.Breaker.Check` | src/circuit_breaker.c:81-121 | refill, verdict and counters |
| `CircuitBreaker.Breaker.RecordSettled` | src/circuit_breaker.c:123-133 | saturating decrements, unknown peers ignored |
| `CircuitBreaker.Breaker.RefillTokens` | src/circuit_breaker.c:135-146 | every due bucket filled |

## Left out

- secp256k1, MuSig2, SHA-256, SipHash and ChaCha20-Poly1305 themselves, and every failure path of those libraries.
- PBKDF2 and the English word list of src/bip39.c: any valid list will do.
- Failing allocations and failing reads of /dev/urandom.
- Penalty, HTLC-resolution, PTLC-resolution and cooperative-close transactions: long key derivations with little state.
- PTLC operations: the list of PTLCs is fixed while a channel runs.
- Channel cleanup, nonce pools, persistence of channels and commitment signatures.
- Wrap-around of 64-bit commitment numbers and of array capacities.
- Merkle roots and key tweaks of taproot outputs, and script bytes other than the pushed numbers: an output is its internal key and its leaves.
- Sockets, files, SQLite, JSON and logging; src/client.c beyond the steps cited above.
- Header and filter-header synchronisation, peer rotation, transaction caches and checkpoints of src/bip158_backend.c.
- The C library's qsort is an insertion sort here; only the sorted result matters.
- The inactive-slot flag of the breaker, which no code clears, and the channel-type TLV in the same file.
- secure_zero and other erasure of secrets.
- Transport.RunExact: a failed read ends the run; `BadHeaderExactly` says what one end does afterwards.
- PsSigning.AtMostOneSignature: about leaves whose chain has begun; other leaves are not looked up by the code.
- Bolt11.DecodeEncode: assumes the signature recovers a key; whose key that is belongs to the signature scheme.
- ChannelMirror.PairRun: what two ends do after a sweep that failed several entries is not modelled; `SweepAgreesExactly` says when that is.
