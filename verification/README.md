# Verified model of colibri's core algorithms

This project models, in Dafny, five parts of the colibri inference engine and proves what they are
meant to do. Loops, buffers and records of the C code become loops, arrays and classes here; each
method is proved against a mathematical reference, and the main theorems are about that reference.

1. **CFS1 entropy coder** (`c/fse_coli.h`). Two interleaved rANS states over nibbles, 12-bit
   frequencies, byte renormalisation. `RansCore` holds the one-symbol steps and their inverse laws,
   `CfseNormalize` the frequency table, `Cfse` the container format and its theorems,
   `CfseCompress` and `CfseDecompress` the two functions as they run on buffers, with every 32-bit
   value and every read bounded.
2. **Inkling's incremental state** (`c/inkling.c`, `c/kv_prefix.h`). `ShortConv` is the streaming
   convolution, `KvRing` one layer's key or value buffer, `InklingLayer` a layer over an unbounded
   history, `InklingStep` one incremental step of a layer, `KvPrefix` the record of fed ids,
   `InklingReference` the stateless engine and what makes a session end, `Inkling` the whole engine
   over a serve session, expert caches included, `InklingReuse` what reuse can change. Projections,
   norms, the softmax combination, the dense and the expert blocks and the sampler are arbitrary
   functions.
3. **Expert cache and MoE rounds** (`c/inkling.c`). `ExpertCache` is the LRU cache with pins and its
   index, `Moe` the cacheless sum and the eviction argument, `MoeRounds` the layer as it runs and
   the feed-forward step that the engine of part 2 takes through it, `MoeReuse` which batches exit
   and what reuse changes, on top of `ReuseSteps` (batches that split), `ReuseTables` (routers given
   by a table), `ReuseWalks` and `ReuseBlocks` (batches that fit one way only).
4. **FP8 E4M3** (`c/kv_fp8.h`, `c/dsv4_quant.h`). `Fp8` compares the bit-level encoder with the
   brute-force nearest value, `Fp8Rows` is the row and group quantiser and its error bound,
   `Dsv4Simulate` the blockwise simulation under power-of-two scales. Finite floats are exact reals.
5. **Index, parser and text tools** (`c/gguf.h`, `c/json.h`, `c/strbuf.h`, `c/harness.h`).
   `GgufIndex` is the tensor-name hash index; `JsonText`, `Json`, `JsonGrammar` (the texts of a
   value by RFC 8259), `JsonRoundTrip`, `JsonParser` and `JsonPrinter` are JSON; `Lexical` is
   textual path normalisation and the workspace fence; `CommandOutput` the head and tail of command
   output; `TextEdit` exact-string replacement.

Check the project with `dafny verify dfyconfig.toml`.

## Main results

- `Cfse.RoundTrip`, `CfseCompress.Compress`, `CfseDecompress.Decompress`: for every input up to
  2^32-1 bytes the decompressor returns it from the compressor's output, which is 9 bytes longer
  than the smaller of the data and its coded form (`Cfse.CompressedSize`). `Cfse.PrefixFree` and
  `Cfse.TruncatedRejected`: an accepted frame stops being accepted when bytes are added or removed
  at its end. `Cfse.Canonical`: an accepted coded frame is exactly the encoder's own frame if and
  only if both initial states are below 2^31.
- `Inkling.Session`: from start-up on, over any list of requests, with growth, failed growth, audio,
  refusals, cancelled and limited generation, and with the sparse layers running through their
  expert caches, every reply given equals the one of an engine that starts from nothing for each
  request. Only an exit inside the sparse block can end the session early, and it ends exactly at
  the first request that does not fit (`InklingReference.Answered`): never, with any slots at all,
  when nothing is pinned or every expert has a slot. Which reply that is says
  `InklingReference.ReferenceReply`, and which positions a query sees `InklingLayer.QueryWindow`.
- `MoeReuse.ReuseHarmlessIff`: reuse of a prefix shows in no reply, but with pins it can show in
  whether the engine exits, because the tail's rounds start at the tail's first pair. Where something
  but not everything is pinned and experts outnumber slots, it adds no exit exactly when the reused
  pairs fill whole rounds, and avoids none exactly when every step that fed them (a prompt's tail, a
  generated token) ended on a round. Both effects occur in sessions from start-up, for growing
  prompts of any lengths that miss the condition (`InklingReuse.ReuseEndsSession`,
  `InklingReuse.ReuseKeepsSession`).
- `MoeRounds.MoeLayer`: the layer completes if and only if every round's distinct unpinned experts
  fit into the unpinned slots, and then every row gets its own cacheless sum, whatever else is in
  the batch (`MoeRounds.TokenIsRow`).
- `Fp8.E4m3Round`, `Fp8.EncodeNearest`: the fast encoder returns a nearest value, ties to even, and
  agrees with the exhaustive search on every number and NaN, and not on the infinities.
  `Fp8Rows.ElementReads` bounds the error of every element, `Dsv4Simulate.Simulate` identifies every
  simulated value.
- `JsonGrammar.GrammarReads`: every text of a value by RFC 8259, nested at most 1024 deep, parses to
  that value. `JsonRoundTrip.EmitSpelled`, `JsonRoundTrip.RoundTripIff`, `JsonRoundTrip.Settles`:
  what is printed is such a text, and reading it back loses nothing.
- `GgufIndex.Model.Find`, `Lexical.Idempotent`, `Lexical.Fence`, `CommandOutput.Collect`,
  `TextEdit.RefusesAmbiguityIff`, `TextEdit.ReplacedAll`.

## Where the code and its comments differ

- The comment in `moe()` says that working in rounds of at most `cap` pairs keeps every slot of a
  round from being evicted. Pinned slots cannot be evicted, so the bound is `cap` minus the pins, and
  the claim holds for every batch exactly when nothing is pinned or every expert has a slot
  (`MoeRounds.AlwaysFitIff`). Otherwise some batch makes the engine exit, on any cache that start-up
  can leave with pins (`MoeReuse.PinnedStart`).
- `kv_alloc` sets `kv_len` to 0 when the record cannot grow, and a later step sets it again while the
  record stays empty. If memory is back at the next growth, `kv_len` and the new record's length
  differ; that is the only case (`Inkling.Model.KvAlloc`, reached in `Inkling.Disagreement`). Replies
  are not affected.
- `dsv4_e4m3_round` returns 0 at the infinities, where the fast encoder saturates at 448
  (`Fp8.E4m3Round`). Its one caller in the engine, `dsv4_fp8_simulate`, clamps the argument to 448
  first, so neither infinity reaches it there (`Dsv4Simulate.RoundOne`).
- The comment in `serve_one` that `kv_alloc` must not have grown is out of date: growth keeps the
  state, and the model proves reuse after growth. Its claim that the tokens are the same with and
  without reuse holds of all tokens that are emitted; whether the engine gets to emit them can
  depend on the reuse (`MoeReuse.ReuseHarmlessIff`).
- The header of `c/fse_coli.h` says that every fetch of the decoder is bounds-checked. The hot loop's
  fetches are not compared with the end; `CfseDecompress.FastRun` proves that they stay inside all
  the same.
- The record's invariant holds after `kv_prefix_record` exactly when the write reaches at least as
  far as the record did (`KvPrefix.RecordFaithful`); every Inkling caller appends.
- The header of `c/json.h` says that `\u` escapes are not handled. The parser does handle them,
  surrogate pairs included, and the model follows the parser.
- `h_lexical` drops the last component of a normal form that exactly fills its buffer with its
  terminator, and only then (`Lexical.NormalIsFold`, `Lexical.NormalFormKept`). The fence stays
  sound on such a path (`Lexical.Fence`).
- `t_edit` counts matches without overlap, so an `old_string` that overlaps itself can occur twice
  and still count as unique. `TextEdit.RefusesAmbiguityIff` gives the exact condition on
  `old_string`.

## Model

| member | source | states |
|---|---|---|
| RansCore.SymbolUnique | c/fse_coli.h:118-126 | the symbols' slot intervals are disjoint: the only symbol whose interval holds a slot is the one the decoder finds |
| RansCore.ShedRefill | c/fse_coli.h:82-83 | from any encoder state, shedding bytes reaches the interval a symbol needs, and refilling restores the state and the stream |
| RansCore.RefillShed | c/fse_coli.h:136-142 | a refill ends in [2^23, 2^31) after at most two bytes, and shedding restores what was there before |
| RansCore.PutTake | c/fse_coli.h:78-85 | decoding one nibble undoes encoding it, and the encoder's state never leaves [2^23, 2^31) |
| RansCore.TakePut | c/fse_coli.h:148-155 | encoding undoes a decode step from any state in [2^23, 2^31) |
| RansCore.DecodeOfEncode | c/fse_coli.h:78-85 | the decoder reads back the encoder's whole run with both states back at 2^23 and every byte used |
| RansCore.EncodeOfDecode | c/fse_coli.h:143-171 | a run that starts in range and ends on the seals is the encoder's own run on what was decoded |
| RansCore.DecodeExtends | c/fse_coli.h:143-167 | bytes behind those a run reads stay unread and change nothing |
| CfseNormalize.RoomForCorrection | c/fse_coli.h:51-55 | the largest share always has room for the one correction |
| CfseNormalize.NormalizedTable | c/fse_coli.h:40-57 | fails exactly on the empty histogram; otherwise sums to 4096 with a frequency for exactly the symbols present |
| CfseNormalize.TableOrNothing | c/fse_coli.h:40-57 | for any 64-bit counts, wrapped products and totals included, a table that is returned sums to 4096 with a frequency for exactly the symbols present |
| CfseNormalize.TableIff | c/fse_coli.h:40-57 | whatever the counts, a table is returned exactly when the wrapped total is not zero and the shares other than a largest one stay below 4096 |
| CfseNormalize.WrapsToNothing | c/fse_coli.h:40-57 | counts of 2, 2 and 2^64 - 3 wrap to a total of 1, and no table is made |
| CfseNormalize.NoWrap | c/fse_coli.h:41-50 | while the total times 4096 fits 64 bits, the wrapping code computes the exact shares |
| CfseNormalize.Normalize | c/fse_coli.h:40-57 | the loops compute that table for any 64-bit counts, or return -1 |
| CfseNormalize.FrequenciesClose | c/fse_coli.h:44-55 | every frequency but one is within 1 of its symbol's exact share of 4096, up to the floor of 1 and the cap that leaves the other symbols one each |
| Cfse.OwnTable | c/fse_coli.h:66-70 | the table built from the input's own nibbles can encode the input |
| Cfse.CountsNibbles | c/fse_coli.h:66-67 | a histogram entry is the number of low and of high nibbles of that value |
| Cfse.CompressedSize | c/fse_coli.h:91-98 | the frame is 9 bytes longer than the smaller of the data and 40 bytes plus the encoder's stream; its mode byte is 1 exactly when the latter is smaller |
| Cfse.RepeatedNibble | c/fse_coli.h:78-98 | data of one repeated nibble needs no stream, so n of them cost 9 bytes and the smaller of n and 40 |
| Cfse.RoundTrip | c/fse_coli.h:60-172 | decompressing the compressed bytes gives the input back, in raw and coded mode, at most 9 bytes longer |
| Cfse.PrefixFree | c/fse_coli.h:104-171 | bytes appended to an accepted frame make it rejected |
| Cfse.TruncatedRejected | c/fse_coli.h:104-171 | bytes removed from the end of an accepted frame make it rejected |
| Cfse.AcceptedHeader | c/fse_coli.h:104-109 | an accepted frame starts with "CFS1" and mode 0 or 1, and its four length bytes are the number of bytes it gives |
| Cfse.RawCanonical | c/fse_coli.h:110-111 | an accepted frame of mode 0 is the raw frame of its data, and every such frame within the capacity is accepted |
| Cfse.CodedLayout | c/fse_coli.h:112-134 | an accepted frame of mode 1 holds sixteen frequencies that sum to 4096 and two states of at least 2^23, whose slots are the first byte's low and high nibble |
| Cfse.Canonical | c/fse_coli.h:112-171 | an accepted coded frame is what the encoder's loop writes for the decoded bytes and that table, if and only if both initial states are below 2^31 |
| Cfse.NonCanonicalFrame | c/fse_coli.h:128-134 | a concrete accepted frame with initial states 2^31 |
| CfseDecompress.Unpack | c/fse_coli.h:118-126 | the packed table entry gives back bias, 13-bit frequency and symbol |
| CfseDecompress.UnmixFits | c/fse_coli.h:149-150 | the decode multiply cannot wrap 32 bits from any state, and leaves at least 2^11 from one of at least 2^23 |
| CfseDecompress.FillTable | c/fse_coli.h:123-126 | every slot of the table is filled with its symbol's entry |
| CfseDecompress.StepFast | c/fse_coli.h:149-154 | the unchecked step equals the checked one and reads at most two bytes |
| CfseDecompress.StepChecked | c/fse_coli.h:158-163 | the checked step refuses exactly when the stream runs dry, and reads nothing past the end |
| CfseDecompress.FastRun | c/fse_coli.h:148-156 | the unchecked pair loop, given four bytes per pair, agrees with the checked decoder |
| CfseDecompress.TailPair | c/fse_coli.h:157-166 | the checked pair behind the hot loop decodes one byte or refuses exactly when the stream runs dry |
| CfseDecompress.DecodeLoop | c/fse_coli.h:143-167 | both loops together, on any input, corrupt or not, equal the byte-checked decoder; bytes behind the output are not written |
| CfseDecompress.Decompress | c/fse_coli.h:103-172 | returns 0 with the decoded bytes exactly when the format accepts them, else -1; writes nothing past the stated length |
| CfseCompress.PutNibble | c/fse_coli.h:80-84 | one encode step on the buffer, written backwards, or out of room |
| CfseCompress.EncodeFromStart | c/fse_coli.h:77-85 | the nibble loop run from the end is the byte-wise encoder |
| CfseCompress.EncodeNext | c/fse_coli.h:78-85 | one turn of the loop encodes one nibble on the state of its parity, or the stream does not fit |
| CfseCompress.EncodeLoop | c/fse_coli.h:74-85 | the backward loop leaves the encoder's states and stream behind the cursor, or the stream does not fit |
| CfseCompress.EncodePayload | c/fse_coli.h:72-92 | coded mode is chosen exactly when it is shorter than the input, however large the buffer |
| CfseCompress.HistogramSum | c/fse_coli.h:66-67 | the nibble counts add up to twice the input's length |
| CfseCompress.Compress | c/fse_coli.h:60-99 | for every buffer of at least the bound it writes the specified frame, whose length is 9 and the smaller of the data and the coded form, and whose mode byte says which; nothing for a smaller buffer |
| ShortConv.Streaming | c/inkling.c:584-603 | filtering two pieces one after the other gives the outputs and the state of filtering them joined |
| ShortConv.StreamingChunks | c/inkling.c:584-603 | the same for any list of chunks, however short |
| ShortConv.RowsAreChannels | c/inkling.c:590-600 | filtering rows acts on each channel as the scalar filter with that channel's weights |
| ShortConv.Apply | c/inkling.c:584-603 | the in-place loops filter every channel and leave its last P inputs as its state |
| ShortConv.Impulse | c/inkling.c:594-599 | one input among zeros comes out once on top and under the last weight, a step later under the one before it, down to the first weight P steps later |
| KvRing.SlotsApart | c/inkling.c:1341-1342 | positions less than the ring's size apart never share a slot |
| KvRing.RowsStored | c/inkling.c:1311-1317 | a sliding layer stores the smaller of its window and the context, any other layer the context |
| KvRing.WindowReadable | c/inkling.c:1311-1323 | whatever a query attends to is in its own batch or still in the ring |
| KvRing.ReadSpan | c/inkling.c:1340-1342 | a query reads exactly the rows of its window, with the values of the unbounded history |
| KvRing.Append | c/inkling.c:1364-1371 | appending a chunk of any length, longer than the ring included, keeps every row a later query can reach |
| KvRing.GrowCases | c/inkling.c:1862-1887 | growth either keeps the row count or starts from a linear buffer of the old size |
| KvRing.Regrow | c/inkling.c:1890-1898 | the head-by-head copy to a new stride keeps every row |
| InklingLayer.AttendedSplit | c/inkling.c:1321-1359 | attention over a longer history does not change earlier outputs |
| InklingLayer.QueryWindow | c/inkling.c:1321-1359 | a query hands to the attention, per head, on a sliding layer the last min(q + 1, window) positions up to q, on a global one all q + 1, each with its own cell |
| InklingLayer.RunAt | c/inkling.c:1796-1809 | what a layer does at one position: projections of the normed input through their convolutions, attention over the window, and the two residuals |
| InklingLayer.RunSplit | c/inkling.c:1796-1809 | a layer over two pieces is the layer over the first, continued from the state it leaves |
| InklingLayer.DepthExtends | c/inkling.c:1796-1809 | every layer's input for a longer sequence extends its input for a shorter one |
| InklingStep.AttendChunk | c/inkling.c:1319-1360 | every query of a batch hands to the attention exactly its window of the whole history: the last min(q + 1, window) positions on a sliding layer, all q + 1 on a global one |
| InklingStep.LayerAttention | c/inkling.c:1797-1804 | attention and the residual give the whole-history layer's rows and append the batch's keys and values |
| InklingStep.LayerStep | c/inkling.c:1797-1808 | one incremental step, its expert cache included, gives the whole-history layer's outputs at the new positions and keeps the layer's state; it exits instead exactly when the rows that reach the sparse block do not fit its cache |
| InklingStep.GrowLayer | c/inkling.c:1883-1899 | a layer's buffers are stolen exactly when the row count stays, else copied; every readable row survives |
| KvPrefix.Prefix.Alloc | c/kv_prefix.h:52-60 | a fresh empty record, or none |
| KvPrefix.Prefix.Clear | c/kv_prefix.h:64-68 | forgets the ids and the taint, keeps the buffer |
| KvPrefix.Prefix.Grow | c/kv_prefix.h:86-98 | keeps the first ids, or leaves no record at all |
| KvPrefix.Prefix.Record | c/kv_prefix.h:103-109 | appends the fed ids, or drops the record when they do not fit |
| KvPrefix.Prefix.Taint | c/kv_prefix.h:112-114 | marks the record and changes no id |
| KvPrefix.Prefix.Reuse | c/kv_prefix.h:123-128 | the record's length exactly when it is untainted, not empty and a proper prefix of the prompt, else 0 |
| KvPrefix.RecordFaithful | c/kv_prefix.h:26-27 | the record still names the state's ids after a write exactly when the write reaches at least as far as the record did |
| InklingReference.SameIds | c/kv_prefix.h:29-32 | text histories with equal ids are equal, which is what makes a record of ids enough |
| InklingReference.ReusedPrefix | c/inkling.c:2153-2168 | a text history whose ids begin the prompt is the beginning of the prompt |
| InklingReference.RefusedWhen | c/inkling.c:2139-2150 | a request is refused exactly when its prompt is empty, it asks for more than the context holds, or its placeholders and frames are not as many |
| InklingReference.OpenedRoom | c/inkling.c:1849-1913 | the buffers never shrink and then hold the prompt, the reply and 8 more; what is known of earlier prompts survives unless they have to grow and the record gets no memory |
| InklingReference.TokenAt | c/inkling.c:1784-1793 | a placeholder of the prompt takes the frame of its own number while there is one; everything else is text |
| InklingReference.GenerateIsReply | c/inkling.c:2202-2219 | what is generated is the one reply there is: at most maxTok tokens, none the end token, token i sampled on the outputs of the prompt followed by tokens 0 to i - 1, and short of maxTok only before an end token or at a cancellation |
| InklingReference.ReferenceReply | c/inkling.c:2139-2219 | the stateless engine emits exactly that reply to every request that is not refused |
| InklingReference.GenerationFeeds | c/inkling.c:2212-2218 | all tokens of the reply are fed back but the last one at a limit or a cancellation, and generation fits exactly when each of them fits as one step |
| InklingReference.GenerateOn | c/inkling.c:2202-2219 | one more token fed back leaves the rest of the reply, of what is consumed and of what must fit unchanged |
| InklingReference.RoomyAnswers | c/inkling.c:2135-2235 | with nothing pinned or a slot for every expert, in every sparse layer, every request of every list is answered |
| Inkling.EmbedChunk | c/inkling.c:1784-1793 | audio placeholders take the frames in order, everything else is looked up by id |
| Inkling.RunLayers | c/inkling.c:1796-1809 | all layers advance through their buffers and caches: outputs and states are those of the whole history, and some layer exits exactly when the batch does not fit it |
| Inkling.Model.Reset | c/inkling.c:1838-1847 | the state represents the empty history, whatever the buffers still contain |
| Inkling.Model.NoteFed | c/inkling.c:1810-1815 | the record names exactly the consumed ids; audio taints it |
| Inkling.Model.Step | c/inkling.c:1779-1832 | outputs at the new positions equal the whole stack over everything consumed and the state advances to it; the engine exits exactly when some layer does not fit |
| Inkling.Model.KvAlloc | c/inkling.c:1849-1913 | growth keeps history, record and readable rows; where the lengths agreed as far as there was a record, they agree afterwards exactly unless a record is created for a state that had positions but none |
| Inkling.Model.ReuseOrReset | c/inkling.c:2172-2188 | reuse happens exactly when allowed, never across audio, and what is left completes the state to the prompt |
| Inkling.Model.Prefill | c/inkling.c:2172-2195 | the state becomes the prompt's and the outputs are the prompt's, reused or not; the engine exits exactly when the tokens not reused do not fit as one batch after the reused ones |
| Inkling.Model.Decode | c/inkling.c:2202-2219 | the generated ids are those of generating over the whole history each time (InklingReference.GenerateIsReply says which), the state has consumed all that were fed back, and the engine exits exactly when one of these steps does not fit |
| Inkling.Model.Turn | c/inkling.c:2172-2219 | prompt and generation together: the stateless tokens, the exact condition of the exit, and the exact record left for later prompts |
| Inkling.Model.ServeOne | c/inkling.c:2135-2235 | the reply is the stateless engine's, what later requests can reuse is as the reference tells, and the engine exits exactly on a request that does not fit; a record that agreed with the state still does |
| Inkling.Model.Serve | c/inkling.c:2135-2235 | for any list of requests every reply given is the stateless engine's, and their number is exactly that of the requests before the first that does not fit |
| Inkling.Disagreement | c/inkling.c:1909-1912 | the one case is reached: growth without memory, a turn, growth with memory |
| Inkling.StartCaches | c/inkling.c:1205-1252 | start-up leaves every layer a separate, filled cache of its own experts, with exactly the most used ones pinned |
| Inkling.Session | c/inkling.c:1205-2235 | from start-up on: every reply given is the stateless engine's, the session ends exactly at the first request that does not fit, and never when nothing is pinned or every expert has a slot |
| InklingReuse.Conversation | c/inkling.c:2143-2188 | prompts that each continue the one before are all answered when their new tokens fit, and the last one exactly when what is left of it fits |
| InklingReuse.ReuseEndsSession | c/inkling.c:2143-2188 | for any start-up that pins with more experts than slots, and any growing prompts whose reused pairs do not fill whole rounds, some model exits on the last prompt after the others and answers it alone |
| InklingReuse.ReuseKeepsSession | c/inkling.c:2143-2188 | and if one of these prompts ended inside a round, also when the last one before ended on one, some model answers the last prompt after the others and exits on it alone |
| ExpertCache.VictimExists | c/inkling.c:1151-1154 | a victim exists exactly when fewer slots are pinned than used |
| ExpertCache.Reassign | c/inkling.c:1157-1162 | handing a slot to an expert keeps index and slots inverse exactly when the expert has no other slot; weights, clocks and pins stay consistent |
| ExpertCache.PinsLeaveRoom | c/inkling.c:1219-1225 | pins chosen at start-up always leave a free slot or a victim |
| ExpertCache.TopPinsMost | c/inkling.c:1232-1241 | no unpinned expert was used more often than a pinned one, and fewer are pinned than may be only when no other was used |
| ExpertCache.TopPinsDone | c/inkling.c:1239-1239 | stopping at the first round without a candidate pins the same experts as going on would |
| ExpertCache.PinDepthIs | c/inkling.c:1222-1224 | PIN_N experts are pinned, or as many as half the slots, so far as 8 slots stay unpinned |
| ExpertCache.Cache.Lookup | c/inkling.c:1122-1129 | the slot of a resident expert, else none |
| ExpertCache.Cache.Find | c/inkling.c:1130-1134 | as the lookup; a hit becomes the most recently used slot and nothing else changes |
| ExpertCache.Cache.FindVictim | c/inkling.c:1151-1153 | the first unpinned slot with the smallest clock |
| ExpertCache.Cache.Acquire | c/inkling.c:1137-1164 | a free slot, else the victim, is taken for the expert; the cache invariant survives exactly when the expert had no other slot; out of range or with everything pinned nothing changes |
| ExpertCache.Cache.Fill | c/inkling.c:1166-1197 | the slot gets its own expert's weights and keeps identity and clock |
| ExpertCache.Cache.BestUnpinned | c/inkling.c:1233-1238 | the expert chosen is the last one with the largest count among those without a slot; none exactly when all those counts are 0 |
| ExpertCache.Cache.PinsLoad | c/inkling.c:1205-1252 | exactly the most used experts are pinned and filled, at most cap - 8 of them and at most the depth asked for |
| Moe.AccumulatedIsTokenSum | c/inkling.c:1690-1717 | accumulating over all pairs gives each token the sum over its own kept pairs in order |
| Moe.RowMoeSteps | c/inkling.c:1461-1719 | a row's sum starts from zero and adds its kept ranks in order, expert by weight, then the shared experts in order, each with its own weight |
| Moe.KeptCounted | c/inkling.c:1595-1600 | the kept pairs, by which the counters grow, are counted one by one |
| Moe.FewTouched | c/inkling.c:1520-1532 | while the demand fits and an expert is missing, fewer unpinned slots are touched than there are |
| Moe.VictimUntouched | c/inkling.c:1520-1532 | while the demand fits, the next victim was not touched in this round |
| Moe.SurvivedFits | c/inkling.c:1617-1626 | a round whose slots all survived had a demand that fits |
| MoeRounds.HandOutKeeps | c/inkling.c:1595-1608 | handing out a slot evicts none handed out earlier in the round |
| MoeRounds.AcquirePair | c/inkling.c:1595-1606 | one pair gets the slot of its resident expert or a newly taken one; a miss is counted exactly when the expert was not resident, and -1 comes only with every slot pinned |
| MoeRounds.AcquireRound | c/inkling.c:1594-1608 | a fitting round acquires every slot without evicting its own; hits plus misses grow by the kept pairs, misses by the slots to fill |
| MoeRounds.FillRound | c/inkling.c:1609-1614 | afterwards every used slot holds its own expert's weights |
| MoeRounds.Validate | c/inkling.c:1615-1626 | refuses exactly when some slot no longer belongs to its expert |
| MoeRounds.Compute | c/inkling.c:1690-1717 | the accumulation over the slots is the accumulation over the experts' own weights |
| MoeRounds.Round | c/inkling.c:1592-1719 | one round completes if and only if its demand fits, and then adds the cacheless sum of its pairs |
| MoeRounds.RoomyFits | c/inkling.c:1533-1537 | without pins, or with a slot for every expert, every round of at most cap pairs fits |
| MoeRounds.RoundsFitMeans | c/inkling.c:1592-1593 | the rounds from one on fit exactly when no run of that many consecutive pairs keeps more different unpinned experts than there is room for |
| MoeRounds.PinnedMisfit | c/inkling.c:1528-1532 | any round of different unpinned experts, more than the unpinned slots, fails to fit although it has at most cap pairs |
| MoeRounds.AlwaysFitIff | c/inkling.c:1520-1532 | rounds of at most cap pairs fit for every batch exactly when nothing is pinned or every expert has a slot |
| MoeRounds.Rounds | c/inkling.c:1592-1719 | the round loop completes if and only if all rounds fit, with the cacheless result |
| MoeRounds.SharedExperts | c/inkling.c:1417-1459 | the shared experts' result is the per-token sum for every batch size |
| MoeRounds.TokenIsRow | c/inkling.c:1595-1598 | a token's sum over the pairs of the whole batch is its own row's sum by rank, whatever else is in the batch |
| MoeRounds.MoeLayer | c/inkling.c:1461-1719 | the layer's output is every row's own cacheless sum, for any capacity, rounds, batch size and cache state that fits, and it exits exactly on one that does not; the counters grow by the kept pairs |
| MoeRounds.RouteRows | c/inkling.c:1476-1519 | the flat arrays hold every row's ranks in order |
| MoeRounds.FeedRows | c/inkling.c:1805-1806 | dense or sparse, a chunk gets the block's value row by row, so splitting a chunk changes no value; it exits exactly when some round of the pairs its rows ask for does not fit |
| ReuseSteps.RoundsJoin | c/inkling.c:1592-1593 | two batches of which the first fills whole rounds fit together exactly when each fits |
| ReuseSteps.StepsJoin | c/inkling.c:1592-1608 | steps that all end on a round, or among easy pins, fit together as one batch |
| MoeReuse.ReuseHarmlessIff | c/inkling.c:1592-1608 | for rows fed before in any steps, for any router and any rows: leaving them out adds no exit exactly when nothing or everything is pinned, every expert has a slot, or they fill whole rounds; it avoids none exactly when nothing or everything is pinned, every expert has a slot, or every step ended on a round |
| MoeReuse.ReuseExits | c/inkling.c:1592-1608 | otherwise some rows with different experts each fit as a whole and not without those fed before, for every number of experts per row (with TOPP cuts only where it exceeds the slots) |
| MoeReuse.ReuseSaves | c/inkling.c:1592-1608 | if one step ended inside a round, some rows fit without those fed before and not as a whole, for every number of experts per row (with TOPP cuts only where it exceeds the slots) |
| MoeReuse.PinnedStart | c/inkling.c:1219-1252 | any start-up that pins, with more experts than slots, leaves a cache on which rows with topK different experts each make the layer exit, for every topK |
| Fp8.LutInit | c/kv_fp8.h:18-30 | the table holds every code's value and is filled once |
| Fp8.RintNearest | c/kv_fp8.h:39-46 | rounding is to nearest, ties to even |
| Fp8.MagnitudeNearest | c/kv_fp8.h:36-46 | across subnormals, binade carries and the top binade the code's value is nearest among all magnitudes, ties to the even code |
| Fp8.EncodeNearest | c/kv_fp8.h:31-47 | for every real the encoder's value is nearest among all finite codes, ties to even, saturating at 448 |
| Fp8.BruteForce | c/dsv4_quant.h:25-29 | the exhaustive search finds a nearest finite code, preferring an even one on ties; NaN and the infinities leave code 0 |
| Fp8.BestIsEncoded | c/dsv4_quant.h:25-31 | any such code has the value of the encoder's code |
| Fp8.E4m3Round | c/dsv4_quant.h:25-31 | the reference rounding equals the decoded fast encoding for every number and NaN; it differs exactly at the infinities, where it returns 0 |
| Fp8Rows.ValueError | c/kv_fp8.h:31-47 | encoding a value of magnitude at most 448 is off by at most 1/16 of it or 2^-10; 448 is exact |
| Fp8Rows.QuantRow | c/kv_fp8.h:53-61 | the row is coded against its own amax, NaN as 0, or zeroed with scale 1 when the amax is outside the range or infinite (Fp8Rows.ElementReads says which); nothing outside the row is written |
| Fp8Rows.AmaxAttained | c/kv_fp8.h:54-55 | the maximum accumulated is 0 or the magnitude of some number of the row |
| Fp8Rows.ElementError | c/kv_fp8.h:53-65 | a dequantised element is off by at most abs(x)/16 or amax/448 * 2^-10, and the largest magnitude is exact |
| Fp8Rows.GroupsPartition | c/kv_fp8.h:71-78 | the groups cover every index exactly once with ceil(n/gs) scales |
| Fp8Rows.QuantRowGs | c/kv_fp8.h:72-78 | every group is coded with its own scale |
| Fp8Rows.DequantRowGs | c/kv_fp8.h:79-85 | every element is scaled by its own group's scale |
| Fp8Rows.RoundTripError | c/kv_fp8.h:53-85 | each dequantised number is within its own group's bound; a NaN, and everything in a group outside the range, reads as 0 |
| Fp8Rows.ElementReads | c/kv_fp8.h:53-85 | in a group without an infinity whose largest magnitude a, attained and exceeded by none, has 1e-35 < a <= 3.4e38, every number reads back within max(abs(x)/16, a/448 * 2^-10) and a number of magnitude a exactly; everything else reads back as 0 |
| Fp8Rows.ThereAndBack | c/kv_fp8.h:53-85 | so does what the two loops give when run one after the other, for any group size |
| Dsv4Simulate.FrexpBinade | c/dsv4_quant.h:36-36 | the exponent is the one binade of the number |
| Dsv4Simulate.LeastPower | c/dsv4_quant.h:36-37 | the block scale is the least power of two at or above the largest magnitude over 448, and at least 2^-22 |
| Dsv4Simulate.LargestAttained | c/dsv4_quant.h:35-35 | the maximum over a block is infinite exactly when some value is, and otherwise 1e-4 or some number's magnitude |
| Dsv4Simulate.ClampIdle | c/dsv4_quant.h:38-38 | the clamp to 448 never fires inside a block of finite values |
| Dsv4Simulate.ClampSaturates | c/dsv4_quant.h:38-38 | the clamp changes no value the encoder would give, except that a NaN becomes 448 |
| Dsv4Simulate.NearestMultiple | c/dsv4_quant.h:38-38 | the code chosen is one whose scaled value is nearest |
| Dsv4Simulate.RoundedIs | c/dsv4_quant.h:38-38 | a number becomes a multiple of the scale by an E4M3 value than which no finite code's is nearer; an infinity becomes 448 times the scale with its sign, a NaN 448 times the scale, all as bfloat16 stores them |
| Dsv4Simulate.Bf16Exact | c/dsv4_quant.h:7-10 | rounding to bfloat16 keeps numbers of at most eight significant bits down to its smallest step of 2^-133, and makes those of 2^128 and more infinite |
| Dsv4Simulate.OverflowsBeyond | c/dsv4_quant.h:7-10 | a number of at most eight significant bits becomes infinite exactly above the largest finite bfloat16, 255 * 2^120 |
| Dsv4Simulate.MultipleExact | c/dsv4_quant.h:38-38 | so it keeps every E4M3 value times a scale of at least 2^-124, unless that is too large for the type |
| Dsv4Simulate.RoundOne | c/dsv4_quant.h:38-38 | the whole inner expression is the nearest multiple of the scale, infinite when too large; an infinity becomes 448 times the scale with its sign, a NaN 448 times the scale |
| Dsv4Simulate.Simulate | c/dsv4_quant.h:33-40 | in place, every number becomes its nearest multiple under its own block's scale, an infinity or a NaN the largest one |
| GgufIndex.Pigeonhole | c/gguf.h:126-135 | distinct numbers below n are at most n, so a table of twice the tensors is never full |
| GgufIndex.EmptySlot | c/gguf.h:133-141 | every probe meets an empty slot |
| GgufIndex.StepOn | c/gguf.h:133-141 | a probe does not pass an empty slot and does not come round |
| GgufIndex.Insert | c/gguf.h:131-135 | storing a tensor in the first empty slot keeps the index complete and ordered along every probe path |
| GgufIndex.Matched | c/gguf.h:140-142 | the first match on the path is the lowest-numbered tensor of that name |
| GgufIndex.Missing | c/gguf.h:140-145 | an empty slot before any match means that no tensor has the name |
| GgufIndex.Model.Capacity | c/gguf.h:127-128 | the table size is a power of two, at least 16 and at least twice the tensors |
| GgufIndex.Model.Index | c/gguf.h:126-136 | builds the complete index for any names, duplicates included, and any hash |
| GgufIndex.Model.Find | c/gguf.h:137-146 | terminates with the lowest-numbered tensor of that name, or nothing exactly when there is none |
| JsonText.Utf8Reads | c/json.h:86-89 | every scalar value's bytes decode to it by section 3 of RFC 3629 |
| JsonText.StrtoulHex4 | c/json.h:79-83 | four hexadecimal digits are read as their value |
| JsonText.StrtoulReads | c/json.h:79-83 | what strtoul gives for white space, a sign, 0x or 0X and hexadecimal digits up to the first character that is none |
| JsonText.HexDigits | c/json.h:79-83 | a digit's value is its place among the digits, in either case |
| JsonText.Spaces | c/json.h:46-46 | the white space skipped is that of RFC 8259 and the two other characters of isspace |
| JsonText.EscapesRead | c/json.h:66-98 | whichever way section 7 of RFC 8259 lets a string be escaped, surrogate pairs included, reading gives the bytes meant and stops behind the quote |
| JsonText.QuotedReads | c/strbuf.h:39-58 | what the escaper writes is read back as the same bytes |
| JsonGrammar.GrammarReads | c/json.h:46-175 | every text of a value by RFC 8259, with any white space around every token, any legal escapes and any text of a number that strtod reads as it, parses to that value up to the nesting limit; what stands behind it is not looked at |
| JsonGrammar.OpenArray | c/json.h:146-161 | an array that goes on with neither a comma nor its bracket ends there, with the elements read so far |
| JsonGrammar.OpenObject | c/json.h:117-138 | so does an object, and one whose comma is followed by no key |
| JsonRoundTrip.EmitSpelled | c/harness.h:62-87 | what is printed is a text of the value by RFC 8259 |
| JsonRoundTrip.EmitShortest | c/harness.h:62-87 | and no other text of it is shorter, if none of its numbers' is |
| JsonRoundTrip.PrintedReads | c/json.h:103-167 | a printed value of allowed depth is read back, key order and duplicates kept, and nothing behind it is consumed |
| JsonRoundTrip.ReadDepth | c/json.h:107-143 | no text makes the parser return a value nested deeper than the limit |
| JsonRoundTrip.RoundTripIff | c/harness.h:62-87 | printing and parsing gives the value back exactly when it nests at most 1024 deep, for values whose numbers strtod reads back from their own text |
| JsonRoundTrip.ReadShaped | c/json.h:103-167 | any text yields a value with NUL-free strings and as many keys as kids |
| JsonRoundTrip.Settles | c/json.h:103-174 | for any text, well formed or not, whose numbers strtod reads back from their own text, parse, print, parse gives the first parse's value |
| JsonRoundTrip.IntegersReadable | c/harness.h:74-75 | with a strtod that reads digits as their number, all integers up to 2^53 are such numbers |
| JsonRoundTrip.IntegersCanBeRead | c/json.h:165-166 | that can be met: the plain decimal reader reads digits as their number |
| JsonParser.Parser.Ws | c/json.h:46-46 | skips exactly the leading white space, which JsonText.Spaces lists |
| JsonParser.Parser.Unicode | c/json.h:77-92 | one \u escape or surrogate pair, truncated ones included, never past the end |
| JsonParser.Parser.StringRaw | c/json.h:55-101 | reads a literal as specified, and nothing when it does not stand at a quote |
| JsonParser.Parser.Array | c/json.h:139-161 | reads the elements as specified and stops at the first malformed place |
| JsonParser.Parser.Object | c/json.h:107-138 | reads the members as specified and stops at the first malformed place |
| JsonParser.Parser.Value | c/json.h:103-167 | the recursive descent terminates on any text with the specified value and position, its depth restored |
| JsonParser.JsonParse | c/json.h:170-175 | the value of a text, which JsonGrammar.GrammarReads gives for every well-formed one |
| JsonParser.JsonGet | c/json.h:177-181 | the kid of the first equal key, or nothing exactly when there is none |
| JsonPrinter.Buffer.JsonString | c/strbuf.h:39-58 | appends the specified literal |
| JsonPrinter.Buffer.EmitObject | c/harness.h:63-72 | appends the members in order |
| JsonPrinter.Buffer.Emit | c/harness.h:73-87 | appends the specified text |
| JsonPrinter.PrintedClean | c/harness.h:73-87 | printed text holds no NUL, so it is a C string |
| JsonPrinter.PrintAndParse | c/harness.h:62-87 | printing into a buffer and parsing it gives the value back exactly up to the nesting limit |
| Lexical.CappedIsPrefixFold | c/harness.h:270-288 | for any input and buffer the result folds the first components, and stops only at one that does not fit |
| Lexical.CappedNear | c/harness.h:283-283 | at the boundary only the last component is lost, and that exactly when no component is "." or ".." |
| Lexical.NormalIsFold | c/harness.h:266-302 | for every absolute path that fits the buffer, and every relative one that fits with the slash it gains, the result is the component fold with "." skipped and ".." popping, exactly unless the path is a normal form that fills the buffer |
| Lexical.NormalFormKept | c/harness.h:283-283 | a normal form comes back unchanged exactly when it is the root or at least two characters shorter than the buffer |
| Lexical.LastComponentLost | c/harness.h:283-283 | one character longer, it loses exactly its last component |
| Lexical.Idempotent | c/harness.h:266-290 | normalising twice is normalising once, for any input and buffer |
| Lexical.DotChangesNothing | c/harness.h:274-276 | a "." between two parts of a path changes no normal form, for any buffer |
| Lexical.ParentUndoes | c/harness.h:277-281 | a component and ".." behind it go away together, and ".." at the root stays there |
| Lexical.InIffPrefix | c/harness.h:247-251 | for normal forms the fence is prefix of component lists, except that only "/" is inside "/" |
| Lexical.Fence | c/harness.h:247-312 | for the same paths the fence admits only what lies inside the root, and all of that, except that only "/" is inside "/" and that a path filling the buffer is judged without its last component |
| Lexical.CutAtSlash | c/harness.h:277-281 | cutting at the last slash drops exactly the last component |
| Lexical.Pop | c/harness.h:277-281 | the buffer spells the popped stack and the cursor stands at its end |
| Lexical.Push | c/harness.h:284-287 | the buffer spells the stack with the component pushed |
| Lexical.Lexical | c/harness.h:266-290 | the in-place edits end with the buffer spelling the normal form |
| CommandOutput.JoinedJoin | c/harness.h:700-740 | the stream is its pieces in order, so it does not depend on where it is cut |
| CommandOutput.StrippedJoin | c/harness.h:717-718 | removing carriage returns does not depend on where the stream is cut |
| CommandOutput.StrippedMeans | c/harness.h:717-718 | exactly the carriage returns go: no other character is lost, and text without one stays as it is |
| CommandOutput.Conserved | c/harness.h:700-763 | head, the reported number of cut bytes and tail make up the stream; the head fills up to its capacity first, something is cut exactly when the rest reaches the ring's size, the tail is then shorter than the ring, and otherwise the stream is shown verbatim |
| CommandOutput.TailIsLines | c/harness.h:756-761 | a tail shown after a cut starts at a line start, the first one the ring still holds |
| CommandOutput.WriteRotates | c/harness.h:735-738 | writing across the ring's end pushes out exactly the oldest bytes |
| CommandOutput.HoldsAfter | c/harness.h:731-740 | after a chunk shorter than the ring it holds the last bytes of the stream in order |
| CommandOutput.HoldsAfresh | c/harness.h:733-733 | after a chunk at least as long it does too |
| CommandOutput.Output.StripReturns | c/harness.h:717-718 | the in-place loop keeps everything but carriage returns |
| CommandOutput.Output.Keep | c/harness.h:725-740 | a piece tops up the head and the rest goes to the ring |
| CommandOutput.Output.Finish | c/harness.h:752-763 | the report is head, cut count and tail of the whole stream |
| CommandOutput.Collect | c/harness.h:700-763 | the report depends on the stream alone, not on how it was cut into reads |
| TextEdit.OneHit | c/harness.h:912-915 | one hit is counted exactly when there is an occurrence that every other one overlaps |
| TextEdit.OverlapMiscounts | c/harness.h:895-925 | for every old_string that overlaps itself, a file that holds it twice and counts once |
| TextEdit.RefusesAmbiguityIff | c/harness.h:895-925 | one hit means one occurrence on every file, exactly for old_strings that do not overlap themselves |
| TextEdit.SpliceIdentity | c/harness.h:926-938 | replacing a string by itself gives the file back |
| TextEdit.SingleEdit | c/harness.h:926-938 | a single edit replaces the first occurrence and nothing else |
| TextEdit.ReplacedAll | c/harness.h:926-938 | the file is pieces with old_string between them and the result the same pieces with new_string between them, and in no piece does an occurrence start |
| TextEdit.LineOfFirst | c/harness.h:926-947 | the line reported is one more than the newlines before the first occurrence |
| TextEdit.CountHits | c/harness.h:912-915 | the first scan counts the greedy matches |
| TextEdit.Rewrite | c/harness.h:926-938 | the second scan replaces the same matches, or the first, and reports the first one's line |
| TextEdit.Edit | c/harness.h:904-947 | refusals and result: not found, ambiguous, or the new text with its size, count and line |

## Left out

- Fp8.Encode: does not model the sign of zero, because exact reals have one zero.
- Dsv4Simulate.Simulate: the exponent that frexpf leaves for an infinity is a parameter of at least -124, because the C standard does not fix it.
- Inkling.Model.Step: does not model the arithmetic inside a row; projections, norms, softmax combination, dense block and expert blocks are arbitrary functions, and the hd floats of one head's row are one cell.
- Inkling.Model.KvAlloc: a null buffer table is modelled as buffers of no rows; convolution tails are sequences, whose in-place update ShortConv.Apply models separately.
- Inkling.Model.Serve: after an exit nothing is promised of the state, because the process has ended; tokens already written for the request in progress are not modelled.
- Inkling.Model.Decode: sampling, repetition penalty and cancellation are functions carried by the request; text decoding and output are not modelled.
- MoeReuse.ReuseHarmlessIff: models routers that pick different experts for a row, so at most as many as there are; on non-finite logits the source can pick one expert twice.
- MoeRounds.MoeLayer: a row's choice of experts, weights and TOPP cut are an arbitrary function of the row that stays in range; router arithmetic and GPU branches are not modelled.
- ExpertCache.Cache.Acquire: models one layer's clock, and the clock does not wrap; its two exits are one result.
- JsonRoundTrip.RoundTripIff: numbers are reals, and strtod and the %.17g form of those that are not whole are arbitrary functions; that strtod reads a number's own text as that number is its premise (JsonRoundTrip.IntegersCanBeRead meets it for integers). The cast of whole numbers beyond 64 bits is not modelled.
- JsonParser.JsonParse: a number is what strtod reads at that place, so which malformed texts still count as numbers is left to strtod.
- JsonParser.Parser.Value: key, child and string buffers are sequences, so their growth by doubling is not modelled; a string's length is not cut to int.
- GgufIndex.Model.Index: the hash is any function, not FNV-1a, and the mask is the remainder by the power-of-two size.
- CommandOutput.Collect: takes the stream after the hidden-input filter; processes, timeouts, the terminal transcript and a failed ring allocation are not modelled.
- TextEdit.Edit: reading, writing and resolving the file are not modelled, and texts are unbounded.
- Lexical.Fence: the symlink-resolving part of path resolution is not modelled.
- Allocation failures other than the record's, files, memory maps, threads and timing.
- The matrix products of `c/dsv4_quant.h`, GPU back ends, tokenizers, samplers, the stand-alone generation loops and the other engines.
- Configuration, packing tools and schedulers are not modelled.
