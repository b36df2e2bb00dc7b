# sc3 scheduler queues and buffer helpers, in Dafny

This project models three parts of sc3, a Python port of the SuperCollider
client library. Each part is stated in Dafny and proved against its own
specification.

- **`TaskQueue`** (`sc3/seq/_taskq.py`) is the priority queue that the tempo
  clocks use. It keeps a binary heap of `[time, count, task]` entries and an
  index from each task to its entry. Removing a task overwrites the entry's
  task cell with a sentinel (a tombstone), and `pop` throws tombstones away
  when it reaches them.
  - The model is a class whose fields are the heap list, the index, the
    counter and the tombstone count.
  - Ghost sets of entries hold the bookkeeping invariant.
  - `heapq`'s push and pop are methods on the heap list (module `HeapQ`).
- **`Clock` and `SystemClock`** (`clock.py`) are split in two.
  - Module `Clock` holds the pure parts: the tempo stubs and the grid
    arithmetic of `next_time_on_grid`.
  - Module `SystemClock` holds the rest:
    - the conversion between elapsed seconds and 32.32 fixed-point OSC time
      tags;
    - `_sched_add`, with its wake-up rule;
    - `sched` and `sched_abs`, with their guard against infinity;
    - one drain pass of the scheduler thread's `run` loop;
    - `clear`;
    - the rule that only one instance may exist.
  - The sampled wall-clock time and each task's answer to `next()` are
    parameters.
- **`Buffer`** (`sc3/synth/buffer.py`) is covered by three modules.
  - `BufferMessages` holds the message arithmetic:
    - `_gen_oflags` and `calc_partconv_bufsize`;
    - how `_stream_list` cuts a list into `/b_setn` messages;
    - how `get_to_list` cuts a range into `/b_getn` requests.
  - `BufferCache` holds the client-side bookkeeping:
    - the per-server cache registry, with its `/b_info` responder;
    - `free`, `update_info` and the `BufferAlreadyFreed` guards.
  - `Wave` holds the minimal RIFF/WAVE writer and reader, over byte
    sequences instead of files.

Python's dicts keep insertion order, so a dict is modelled as a sequence of
key/value pairs. Floats are modelled as exact reals. Python's `int()`
truncation and the clamping of slices are written out explicitly.

Where the documentation and the code disagree, the model follows the code:
- `peek`'s docstring promises the lowest entry. The code returns the first
  live entry in list order. See Findings.
- The queue raises Python's `KeyError` with the code's own messages.
  `TaskQueue.remove` raises the `KeyError` of `dict.pop`.

## Model

| member | source | states |
|---|---|---|
| HeapQ.HeapPush | sc3/seq/_taskq.py:34 | `heappush` keeps the heap ordered and adds exactly the new entry to the multiset of entries; an entry no less than its would-be parent is simply appended |
| HeapQ.BubbleUp | sc3/seq/_taskq.py:34 | sifting the last element up restores heap order, permutes the list and leaves an already ordered list unchanged |
| HeapQ.HeapPop | sc3/seq/_taskq.py:46 | `heappop` returns the root, which is no greater than any remaining entry; the rest is a heap holding exactly the other entries |
| HeapQ.SinkToLeaf | sc3/seq/_taskq.py:46 | sinking the moved element to a leaf permutes the list and leaves it ordered except above that leaf |
| HeapQ.HeapRootMin | sc3/seq/_taskq.py:46 | the root of a heap is no greater than any of its entries |
| TaskQ.TaskQueue.constructor | sc3/seq/_taskq.py:18-25 | a new queue is empty, with an empty index, a fresh counter and no tombstones |
| TaskQ.TaskQueue.Init | sc3/seq/_taskq.py:21-25 | `_init` brings the queue to that initial state from any state |
| TaskQ.TaskQueue.Add | sc3/seq/_taskq.py:27-34 | a task that is already queued has its old entry tombstoned and the tombstone count raised by one; the new entry carries the time and the next count; the index maps the task to it; the queue stays well formed |
| TaskQ.TaskQueue.Insert | sc3/seq/_taskq.py:31-34 | a task not yet indexed gets a fresh entry with the next count, which joins the heap and the index and is numbered after every earlier entry |
| TaskQ.TaskQueue.Push | sc3/seq/_taskq.py:34 | the heap gains exactly the new entry and the counter advances; the index and the tombstones are untouched |
| TaskQ.TaskQueue.Remove | sc3/seq/_taskq.py:36-40 | raises KeyError exactly when the task is not indexed, and then changes nothing; otherwise the task's entry becomes a tombstone, leaves the index and raises the tombstone count |
| TaskQ.TaskQueue.Pop | sc3/seq/_taskq.py:42-52 | raises KeyError('pop from an empty task queue') exactly when no live entry exists, leaving an empty heap; otherwise it returns the least live entry by (time, count), removes it from the index, and discards every entry before it |
| TaskQ.TaskQueue.PopRoot | sc3/seq/_taskq.py:45-51 | one turn of the loop: the root leaves the heap and precedes every remaining entry; a live root leaves the index, a tombstone lowers the tombstone count |
| TaskQ.TaskQueue.Peek | sc3/seq/_taskq.py:54-61 | raises KeyError('peek from an empty task queue') exactly when no live entry exists; otherwise it returns the first live entry in list order, which is the least live entry when the root is live |
| TaskQ.TaskQueue.PeekMin | sc3/seq/_taskq.py:54-56 | corrected peek: returns the least live entry by (time, count), the one pop would return |
| TaskQ.TaskQueue.Empty | sc3/seq/_taskq.py:63-65 | heap length minus tombstone count is zero exactly when no live entry is left |
| TaskQ.TaskQueue.Clear | sc3/seq/_taskq.py:67-69 | `clear` restores the initial state |
| TaskQ.TaskQueue.RootIsLeastLive | sc3/seq/_taskq.py:45-49 | a live root precedes every other live entry |
| TaskQ.TaskQueue.EntryState | sc3/seq/_taskq.py:36-40 | a heap entry is live exactly when its task cell holds a task, and then the index maps that task to it |
| TaskQ.TaskQueue.OneLiveEntryPerTask | sc3/seq/_taskq.py:27-34 | no task has two live entries |
| TaskQ.TaskQueue.IndexIsLiveTasks | sc3/seq/_taskq.py:29-40 | the index's keys are exactly the tasks of the live entries |
| TaskQ.TaskQueue.LiveCount | sc3/seq/_taskq.py:63-65 | heap length minus tombstone count is the number of live entries |
| TaskQ.TaskQueue.PopTwice | sc3/seq/_taskq.py:42-52 | two successive pops come out in time order, and in insertion order for equal times; if the first fails, so does the second |
| TaskQ.PopKnown | sc3/seq/_taskq.py:42-49 | pop returns the least live entry and removes only it |
| TaskQ.PopOrder | sc3/seq/_taskq.py:27-52 | after adding A at 1.0, B at 0.5 and C at 1.0, the pops give B, A, C, and then KeyError |
| TaskQ.PeekMissesMinimum | sc3/seq/_taskq.py:54-61 | after adding 1 at 1.0, 2 at 5.0 and 3 at 2.0 and then removing 1, peek gives (5.0, 2) while pop gives (2.0, 3) |
| Clock.BeatsToSecs | clock.py:35-37 | without a tempo, beats are seconds |
| Clock.SecsToBeats | clock.py:38-40 | without a tempo, seconds are beats |
| Clock.BeatsToBars | clock.py:41-43 | a clock without a meter answers 0 |
| Clock.BarsToBeats | clock.py:44-46 | a clock without a meter answers 0 |
| Clock.TimeToNextBeat | clock.py:47-49 | a clock without a meter answers 0 |
| Clock.TempoRoundTrip | clock.py:35-40 | the two conversions undo each other in both orders |
| Clock.ModBounds | clock.py:54-56 | `bi.mod` with a positive divisor lies in [0, q) and differs from its argument by a multiple of q |
| Clock.ModIdempotent | clock.py:54-56 | taking a phase modulo q twice is the same as taking it once |
| Clock.RoundUpBounds | clock.py:56 | `bi.roundup` with a positive step is the least grid line at or above its argument |
| Clock.NextTimeOnGrid | clock.py:51-56 | `next_time_on_grid` as written: with a positive quantum the result lies on the quantum's grid |
| Clock.NextTimeOnGridPhased | clock.py:51-56 | the corrected `next_time_on_grid` is the as-written result shifted by the reduced phase, so it lies on the phase-shifted grid |
| Clock.NextTimeOnGridSpec | clock.py:51-56 | a zero quantum gives beats + phase; a positive quantum gives the first grid line at or after beats - (phase mod quant) |
| Clock.NextTimeOnGridLosesPhase | clock.py:51-56 | at beat 5 with quantum 4 and phase 1 the result is 4, which lies in the past |
| Clock.NextTimeOnGridPhasedSpec | clock.py:51-56 | corrected form: never before the current beat, on the grid shifted by the phase, and less than a quantum ahead when 0 <= phase < quant |
| SystemClock.Trunc | clock.py:169 | `int()` on a float truncates toward zero |
| SystemClock.RoundTripNotLater | clock.py:168-172 | a non-negative elapsed time comes back from its time tag no later than it was, and less than one tick plus the constant's scale error earlier |
| SystemClock.RoundTripNotEarlier | clock.py:168-172 | a non-positive elapsed time comes back no earlier than it was, within one tick plus the scale error |
| SystemClock.ElapsedToOsc | clock.py:168-169 | the tag is the offset plus the elapsed seconds in ticks, truncated toward zero |
| SystemClock.OscToElapsed | clock.py:171-172 | a tag at the offset is time 0; a later tag is a positive time and an earlier one a negative time |
| SystemClock.ElapsedToOscMonotone | clock.py:168-169 | later elapsed times never get earlier time tags |
| SystemClock.SortedInsertion | clock.py:185 | placing an item after every item not later than it keeps the time-ordered queue ordered |
| SystemClock.CountNotAfterSplits | clock.py:236-237 | in a queue ordered by time, the items not later than t form a prefix |
| SystemClock.SystemClock.constructor | clock.py:78-85 | a new clock has an empty queue, no wake-ups, its start time and its OSC offset |
| SystemClock.SystemClock.SchedAdd | clock.py:177-191 | the queue gains exactly (secs, task); a TimeThread's `next_beat` becomes secs; the run loop is woken exactly when the head time changes, which happens exactly when secs is earlier than the old head (or differs from -1e10 for an empty queue) |
| SystemClock.SystemClock.HeadAfterInsert | clock.py:179-189 | an ordered insertion changes the head time exactly when the new time is earlier than the old head |
| SystemClock.SystemClock.Sched | clock.py:265-274 | scheduling a delta of +inf raises and changes nothing; otherwise the task is queued at now + delta, a TimeThread's `next_beat` becomes that time and any other task's is kept, and the run loop is woken once by `sched` plus once more when the new time changes the queue's head; the OSC offset stays |
| SystemClock.SystemClock.SchedAbs | clock.py:276-283 | scheduling at +inf raises and changes nothing; otherwise the task is queued at that time, a TimeThread's `next_beat` becomes that time and any other task's is kept, and the run loop is woken once by `sched_abs` plus once more when the new time changes the queue's head; the OSC offset stays |
| SystemClock.SystemClock.TakeHead | clock.py:238-242 | the head item leaves the queue and a TimeThread's `next_beat` is cleared |
| SystemClock.SystemClock.FireHead | clock.py:238-253 | the head leaves; a delay answer puts the task back at its scheduled time plus the delay; any other answer drops it; no new task enters the queue; the run loop is woken once exactly when the requeued time goes before the new head (or fills an empty queue); a TimeThread's `next_beat` becomes the requeue time or None; the OSC offset stays |
| SystemClock.SystemClock.DrainPass | clock.py:236-253 | every fired item was due at the sampled now; the pass stops early only at an empty queue or at a head not yet due; the queue plus the fired items equal the old queue plus the requeued items; with no negative delay, items fire in time order; each fired TimeThread's `next_beat` is what its last firing in the pass set, and every other task of the queue keeps its `next_beat`; the run loop is woken at most once per requeued item; the OSC offset stays |
| SystemClock.SystemClock.DrainTurn | clock.py:238-253 | one turn of the drain loop: the due head fires with the next reply, and the fired list, the queue accounting, the firing order, the fired TimeThreads' `next_beat`, the other tasks' unchanged `next_beat` and the wake-up bound all carry over |
| SystemClock.LastBeatsLast | clock.py:242-253 | a TimeThread's last firing in a pass decides its recorded `next_beat`: the requeue time after a delay, None otherwise |
| SystemClock.LastBeatsFired | clock.py:242-253 | only TimeThreads that fired in the pass have a recorded `next_beat` |
| SystemClock.TasksAfterFire | clock.py:238-249 | firing an item never adds a task the queue did not hold |
| SystemClock.RequeuedSnoc | clock.py:247-249 | one more fired item adds at most its own requeued copy |
| SystemClock.OrderAfterFire | clock.py:236-249 | with a non-negative delay, the fired item precedes everything left in the queue |
| SystemClock.DrainAccounting | clock.py:236-249 | one firing keeps the balance between the queue, the fired items and the requeued items |
| SystemClock.Registry.New | clock.py:67-88 | the first construction creates the one clock, with an empty queue, no wake-ups, the given start time and the given OSC offset; any later one raises 'there is one SystemClock instance already' and keeps the first |
| SystemClock.SecondClockRaises | clock.py:78-88 | constructing a second clock raises |
| SystemClock.Registry.Clear | clock.py:257-263 | with no clock nothing happens; otherwise the queue is emptied, the run loop is woken once and the OSC offset stays |
| SystemClock.Registry.Sched | clock.py:265-274 | called on the class: a delta of +inf raises first; otherwise, with no clock yet, the AttributeError on `None` is raised and nothing changes; with a clock, the task is queued at now + delta with the same `next_beat` and wake-up rules as the instance call |
| SystemClock.Registry.SchedAbs | clock.py:276-283 | called on the class: a time of +inf raises first; otherwise, with no clock yet, the AttributeError on `None` is raised and nothing changes; with a clock, the task is queued at that time with the same `next_beat` and wake-up rules as the instance call |
| Wave.U16 | sc3/synth/buffer.py:908-913 | `struct.pack('<H', n)` is two bytes that decode back to n |
| Wave.U32 | sc3/synth/buffer.py:903-916 | `struct.pack('<L', n)` is four bytes that decode back to n |
| Wave.U16OfLe | sc3/synth/buffer.py:932 | unpacking and repacking a `<H` field gives the same bytes |
| Wave.U32OfLe | sc3/synth/buffer.py:938 | unpacking and repacking a `<L` field gives the same bytes |
| Wave.Header | sc3/synth/buffer.py:900-917 | the header is 44 bytes exactly when every field fits its struct format; otherwise it is `struct.error` |
| Wave.WaveHeader | sc3/synth/buffer.py:900-917 | as written, the header succeeds exactly when frames + 36 and the other fields fit |
| Wave.WaveHeaderFixed | sc3/synth/buffer.py:903 | corrected header: succeeds exactly when 36 + 4*frames*channels and the other fields fit |
| Wave.FieldsReadBack | sc3/synth/buffer.py:900-917 | every field of the packed `<4sL4s4sLHHLLHH4sL` header, given in range, reads back at its offset |
| Wave.HeaderReadBack | sc3/synth/buffer.py:900-917 | each header field reads back at its offset: tags, sizes, format 3, channels, rates, block align, 32 bits, data size |
| Wave.MinLen | sc3/synth/buffer.py:925 | `zip` stops at the shortest channel |
| Wave.InterleaveStep | sc3/synth/buffer.py:925-926 | writing frame k and then frames k+1 onwards appends the same bytes as writing frames k onwards |
| Wave.WaveBytes | sc3/synth/buffer.py:919-926 | the file `_write_wave_file` writes: IndexError for no channels; otherwise it is written exactly when the header fields fit, and it holds 44 header bytes plus 4 bytes per sample of each whole frame |
| Wave.WriteWave | sc3/synth/buffer.py:919-926 | the writer loop produces the header followed by one packed frame per step |
| Wave.Read | sc3/synth/buffer.py:941-949 | `file.read(n)` returns at most n bytes |
| Wave.ReadFrames | sc3/synth/buffer.py:948-949 | reading n frames gives n frames of `channels` samples each, or `struct.error` |
| Wave.Transpose | sc3/synth/buffer.py:950 | `zip(*frames)` turns frames into channels sample by sample; no frames give no channels |
| Wave.ParseWave | sc3/synth/buffer.py:928-950 | what `_read_wave_file` returns: struct.error for a file shorter than 24 bytes; on success as many channels as the header's count (none when no frame is read), all of the same length |
| Wave.ReadWave | sc3/synth/buffer.py:928-950 | the reader's steps compute the parse of the whole file |
| Wave.SeekData | sc3/synth/buffer.py:941-946 | the chunk-search loop ends after the "data" tag or raises what the search raises |
| Wave.SeekTurn | sc3/synth/buffer.py:941-946 | one search turn: a "data" tag ends the search, a missing length raises the format error, a short length raises `struct.error`, and any other chunk is skipped by its length |
| Wave.SeekFound | sc3/synth/buffer.py:941 | a "data" tag ends the search |
| Wave.SeekEnd | sc3/synth/buffer.py:942-944 | end of file where a length should be raises 'bad file format or algorithm' |
| Wave.SeekShort | sc3/synth/buffer.py:945 | a length cut short raises `struct.error` |
| Wave.SeekSkip | sc3/synth/buffer.py:945-946 | any other chunk is skipped by its declared length |
| Wave.ReadFrameLoop | sc3/synth/buffer.py:948-949 | the frame loop reads exactly the frames the specification function reads |
| Wave.FrameBytesWords | sc3/synth/buffer.py:926 | a packed frame is 4*channels bytes and splits back into its samples |
| Wave.ReadInterleaved | sc3/synth/buffer.py:925-926 | reading back interleaved frames gives those frames |
| Wave.ReadFramesCons | sc3/synth/buffer.py:948-949 | a whole frame at the front is read first |
| Wave.FrameCountOfSize | sc3/synth/buffer.py:948 | a data size of 4*n*c bytes holds n frames of c channels |
| Wave.InterleaveLength | sc3/synth/buffer.py:925-926 | interleaved frames take 4*channels bytes each |
| Wave.TransposeFrames | sc3/synth/buffer.py:950 | transposing the frames of equal-length channels gives the channels back |
| Wave.WrittenLayout | sc3/synth/buffer.py:919-926 | in the written file the reader finds the channel count, a fmt length that leads to the data chunk, the data size and the frames |
| Wave.HeaderLayout | sc3/synth/buffer.py:900-926 | the same layout facts hold for a header with any RIFF size field |
| Wave.RoundTrip | sc3/synth/buffer.py:919-950 | reading what the writer produced from equal-length, non-empty channels gives the same channels |
| Wave.RiffSizeAsWritten | sc3/synth/buffer.py:903 | as written, the RIFF size field is smaller than the byte count after it for every file with a frame |
| Wave.RiffSizeFixed | sc3/synth/buffer.py:903 | with the corrected header, the RIFF size field is the byte count after it |
| Wave.SkipsOtherChunk | sc3/synth/buffer.py:941-946 | the search skips a chunk that is not "data" and continues after it |
| Wave.NoDataChunkRaises | sc3/synth/buffer.py:941-944 | a file whose chunks end without a "data" chunk raises 'bad file format or algorithm' |
| BufferMessages.GenOflags | sc3/synth/buffer.py:663-665 | flags lie in [0, 8) and each option can be read back from its own bit |
| BufferMessages.CalcPartconvBufsize | sc3/synth/buffer.py:797-801 | no frame count raises TypeError; an fftsize of 0 or 1 (a partition size of 0) raises ZeroDivisionError; every other fftsize gives a result |
| BufferMessages.PartconvBufsizeCovers | sc3/synth/buffer.py:797-801 | for fftsize >= 2, the size is fftsize times the least number of half-size partitions that covers the impulse response |
| BufferMessages.CeilBounds | sc3/synth/buffer.py:801 | the rounded-up quotient bounds n between whole multiples of the divisor |
| BufferMessages.CeilOfBounds | sc3/synth/buffer.py:514 | an integer lying between its neighbouring multiples is the rounded-up quotient |
| BufferMessages.Slice | sc3/synth/buffer.py:474 | a Python slice clamps its bounds to the list |
| BufferMessages.SliceSplit | sc3/synth/buffer.py:474 | adjacent slices join up |
| BufferMessages.SliceWhole | sc3/synth/buffer.py:474 | a slice from 0 past the end is the whole list |
| BufferMessages.Chunked | sc3/synth/buffer.py:473-478 | message k carries slice k of 1626 samples, starting at start_frame + 1626k |
| BufferMessages.ChunkedValues | sc3/synth/buffer.py:473-478 | the first n messages carry exactly the first 1626n samples in order |
| BufferMessages.StreamList | sc3/synth/buffer.py:465-484 | the loop sends the fewest 1626-sample messages that cover `size`, each the slice at its offset; when `size` covers the list, the messages carry the list exactly |
| BufferMessages.CountOrDefault | sc3/synth/buffer.py:511-512 | `count` defaults to frames * channels, which raises TypeError when either is None |
| BufferMessages.GetToList | sc3/synth/buffer.py:506-541 | a missing count without frames or channels raises TypeError; otherwise request k asks for min(1633, rest) samples from index + 1633k, and the last request ends at index + count; a count of 0 or less sends no request; for a count of 0 or more there are exactly as many requests as expected replies |
| BufferCache.Lookup | sc3/synth/buffer.py:867 | `d[k]` finds a value exactly when some pair holds the key, and the pair it returns is in the dict |
| BufferCache.Find | sc3/synth/buffer.py:867 | dict lookup reports the position of the key, or that it is absent |
| BufferCache.Put | sc3/synth/buffer.py:809 | `d[k] = v` keeps keys unique; an existing key keeps its place; a new key goes last |
| BufferCache.Delete | sc3/synth/buffer.py:813 | `del d[k]` keeps keys unique and drops exactly one pair when the key is present |
| BufferCache.PutLookup | sc3/synth/buffer.py:809 | after `d[k] = v`, k gives v and every other key gives what it gave before |
| BufferCache.DeleteLookup | sc3/synth/buffer.py:813 | after `del d[k]`, k is gone and every other key gives what it gave before |
| BufferCache.CacheStaysWellFormed | sc3/synth/buffer.py:806-809 | filing a buffer keeps a cache well formed: responder first, unique keys, buffers after it |
| BufferCache.UncacheStaysWellFormed | sc3/synth/buffer.py:811-813 | removing a buffer keeps the responder first and the keys unique |
| BufferCache.Caches.constructor | sc3/synth/buffer.py:84 | the registry starts empty |
| BufferCache.Caches.CachedBufferAt | sc3/synth/buffer.py:864-869 | the entry under the key, or None exactly when the server or the key is missing |
| BufferCache.Caches.Cache | sc3/synth/buffer.py:806-809 | the server's cache is opened if needed and the buffer is filed under its number; every other entry of every server is unchanged |
| BufferCache.Caches.Uncache | sc3/synth/buffer.py:811-822 | the buffer's key is removed; when only the responder remains, the server's cache is dropped; a missing key changes nothing; every other entry is unchanged |
| BufferCache.Caches.ClearServerCaches | sc3/synth/buffer.py:848-854 | the server's cache leaves the registry and nothing is found under it afterwards |
| BufferCache.Caches.OnInfo | sc3/synth/buffer.py:829-839 | a `/b_info` reply for a cached buffer sets its frames, channels and sample rate and runs its pending action once, clearing it; an unknown number changes nothing |
| BufferCache.Caches.CachedBuffersDo | sc3/synth/buffer.py:856-862 | the calls made are the visits of the server's cache, in insertion order |
| BufferCache.Caches.CachedBuffersDoCounted | sc3/synth/buffer.py:856-862 | corrected form: the calls number the buffers 0, 1, 2, ... |
| BufferCache.Visits | sc3/synth/buffer.py:859-862 | the calls of the `enumerate` loop over the first n pairs: at most n, each numbered below n |
| BufferCache.VisitsSound | sc3/synth/buffer.py:859-862 | every call hands over a cached buffer together with its position in the dict |
| BufferCache.VisitsOrdered | sc3/synth/buffer.py:859-862 | calls come in insertion order, and no buffer is visited twice |
| BufferCache.VisitsComplete | sc3/synth/buffer.py:859-862 | every cached buffer is visited |
| BufferCache.VisitsSkipsZero | sc3/synth/buffer.py:859-862 | with one cached buffer, it is numbered 1, not 0 |
| BufferCache.CountedSpec | sc3/synth/buffer.py:856-862 | the corrected calls visit the same buffers in the same order, and call j has number j |
| BufferCache.Buffer.constructor | sc3/synth/buffer.py:86-128 | a new buffer has the given number, frames, channels and sample rate; no path, no start frame and no pending action; it is cached exactly when asked, by filing it under its number in its server's cache, and no other cache entry changes |
| BufferCache.Buffer.Guard | sc3/synth/buffer.py:588-590 | a server command on a freed buffer raises `BufferAlreadyFreed("'<command>' called")`; otherwise it proceeds with the buffer number. The same guard appears at lines 555, 595, 601, 612, 628, 644, 668, 679, 687, 696, 706, 716, 725, 744, 750 and 792 |
| BufferCache.Buffer.Free | sc3/synth/buffer.py:572-581 | a second free only warns; the `/b_free` message carries the old number; the buffer leaves the cache; every field except the pending action becomes None, so every later command raises BufferAlreadyFreed; the registry loses exactly the buffer's key, and the whole server cache when only the responder is left; no other cache entry changes |
| BufferCache.Buffer.UpdateInfo | sc3/synth/buffer.py:768-785 | caches the buffer, even a freed one, by filing it under its number in its server's cache, with no other cache entry changed; records the action and sends `/b_query` with the number; the buffer's fields are untouched |
| BufferCache.InfoRunsActionOnce | sc3/synth/buffer.py:783-785 | after `update_info`, the reply updates the buffer and runs the action once; a second reply does not run it again |

## Left out

- Threads, condition variables, waits and the wall clock are not modelled. The sampled `now` and each task's answer to `next()` are parameters. `sched_stop`, `sched_clear`, the waiting loops of `run` and `osc_time` are not modelled.
- Floating point is not modelled: times, phases and tags are exact reals. The float32 packing of samples is not modelled either: a sample is an opaque 4-byte word. NaN and infinities are not modelled, except for the +inf guards of `sched` and `sched_abs`.
- `bi.mod` and `bi.roundup` are not part of this model. They are taken as floored modulo and as rounding up to the next multiple.
- TaskQ.TaskQueue.Remove: the `KeyError` that `dict.pop` raises carries the missing task. The model's message is a fixed text.
- SystemClock.SystemClock.Sched: the raised message is not formatted with the item, the time and the delta. This method is the call once a clock exists; the class-level path with no clock, which raises AttributeError, is SystemClock.Registry.Sched.
- SystemClock.SystemClock.SchedAbs: the raised message is not formatted with the item, so it reads "sched_abs won't schedule to infinity". SystemClock.Registry.SchedAbs and SystemClock.Registry.Sched return the same fixed texts.
- SystemClock.SystemClock.SchedAdd: `PriorityQueue` breaks ties between equal times by comparing the tasks. The model leaves the order among equal times unspecified. `task_done` is not modelled.
- SystemClock.SystemClock.DrainPass: the pass also ends when the given replies run out. A task that answers a delay of 0 or less can keep the source's loop going forever. The wake-ups over a whole pass are stated as a bound, at most one per requeued item; FireHead states the exact rule for each turn.
- SystemClock.Registry.New: the thread start and `_sched_init`'s timing fields are not modelled. Only the queue, the start time and the OSC offset are.
- `sched_clear` refers to an undefined `_self`, `free_all` uses `type(self)` inside a classmethod, and `setn` calls `isnstance`. These paths always raise `NameError`, and they are not modelled beyond the guards they share.
- BufferCache.Buffer.constructor: the buffer number is a parameter. The server's allocator, the sample rate from the status watcher and the `alloc` message are not modelled.
- BufferCache.Buffer.Free: the allocator's release and the completion message are not modelled. The `/b_free` message keeps only the number.
- BufferCache.Caches.ClearServerCaches: freeing the responder is not modelled. The `NotificationCenter` registration that calls it on a server reboot is not modelled either.
- BufferMessages.StreamList: the messages are returned as a list rather than sent one per routine step. The waits, the sync and the final action are not modelled. The float cast and the size warning of `send_list` are not modelled.
- BufferMessages.GetToList: only the requests are modelled. The responder that collects replies, the timeout and the action are not.
- Server commands other than their freed-buffer guard are not modelled: `alloc`, `read`, `write`, `load`, `zero`, `set`, `setn`, `get`, `getn`, `fill`, the `gen` family and `copy_data`. Their payloads are OSC message construction outside this model's scope.
- Wave.ReadWave: a file with zero frames reads back as no channels at all, and Wave.RoundTrip therefore requires at least one frame. File paths, opening and seeking are replaced by positions in a byte sequence.

## Findings

| source | as written | input that shows it | evidently intended | confidence | as-written member | corrected member |
|---|---|---|---|---|---|---|
| sc3/seq/_taskq.py:54-61 | `peek` returns the first live entry in list order | add(1.0, 1), add(5.0, 2), add(2.0, 3), remove(1): peek gives (5.0, 2) while pop gives (2.0, 3) | the lowest live entry, as the docstring says | high, not executed | TaskQ.PeekMissesMinimum | TaskQ.TaskQueue.PeekMin |
| clock.py:51-56 | the result is the grid line after `beats - phase`, and the phase is never added back | beats 5, quant 4, phase 1 gives 4, which is in the past | SuperCollider's `nextTimeOnGrid` adds the phase back: 5 | medium, not executed | Clock.NextTimeOnGridLosesPhase | Clock.NextTimeOnGridPhasedSpec |
| sc3/synth/buffer.py:903 | the RIFF size field holds `frames + 36` | one channel of one sample: the field says 37, but 40 bytes follow it | `36 + 4 * frames * channels` | high, not executed | Wave.RiffSizeAsWritten | Wave.RiffSizeFixed |
| sc3/synth/buffer.py:859-862 | `enumerate` also counts the `'responder'` entry, so buffers are numbered from 1 | one cached buffer is handed over with index 1 | buffers numbered 0, 1, 2, ... as in sclang's `cachedBuffersDo` | medium, not executed | BufferCache.VisitsSkipsZero | BufferCache.CountedSpec |
