# Ticket semaphore, digest pipelines and observer registry in Dafny

This project models the three parts of the Go design-patterns repository whose behaviour is sequential once goroutines and channels are removed. Each part comes with proofs about that behaviour.

- **Ticket semaphore** (`semaphore/semaphore.go`). A buffered channel of capacity `tickets` works as a bounded counter. `Acquire` pushes a ticket into the channel and `Release` pulls one out. Each returns a fixed error when the hand-off cannot complete before its timer fires. The model has a single caller and assumes the timeout is long enough that its timer has not fired when the `select` checks its cases (`main` uses 3 seconds). Then "cannot complete before the timeout" is the same as "cannot complete now". The semaphore becomes a state `(capacity, held)` with `held <= capacity`, and `Acquire`/`Release` return `Ok`, `ErrNoTickets` or `ErrIllegalRelease`.
- **Digest pipelines** (`concurrency/pipelines/digest/bounded.go` and `parallel.go`). Both walk a directory tree, digest every regular file, and aggregate the results into a path-to-digest map.
  - The walk is the sequence of `(path, isRegular, err)` entries that the traversal passes to its callback.
  - Reading a file and computing its MD5 sum are opaque functions passed in as parameters.
  - The done signal becomes an oracle: it names the regular file at which the walk first sees the signal.
  - The interleaving of worker output becomes an arbitrary arrival order, meaning any permutation of the records.
  - The `MD5All` aggregation loop is modelled once (`Aggregator.Collect`). Both pipelines use it.
- **Observer registry** (`behavioral/observer/main.go`). `Register`, `Deregister` and `Notify` work on the map that the source uses as a set of observers.

Modules: `Wrappers` (Option/Result), `TicketSemaphore`, `Observer`, `DigestModel` (shared types and reference definitions), `Aggregator`, `Bounded` and `Parallel`.

Main results:
- **Semaphore.** Ticket accounting holds over any sequence of calls. Starting with `h` tickets held, at most `capacity - h` back-to-back `Acquire` calls succeed.
- **Walk callbacks.** Each callback is proved equal to a callback-free reference definition (`WalkSpec`, `SumSpec`).
- **Aggregation.**
  - The first failing record decides the error.
  - The walk's error is reported only when every record arrived without error.
  - On success the map holds exactly the reached regular files, each mapped to its digest.
  - Whether the run succeeds, and the map it returns, do not depend on the arrival order.
- **`MD5All` in both pipelines.**
  - It never returns "walk canceled", because the done signal is closed only after `MD5All` has decided its result.
  - The unbounded pipeline returns exactly what the bounded one returns for the same arrival order.

Facts about the Go code that the model keeps:
- `parallel.go` starts one goroutine per regular file, with no bound. The model keeps one task per regular file.
- A ticket count of 0 gives an unbuffered channel. With a single caller, every `Acquire` on such a channel times out, and the model behaves the same way.
- `MD5All` never returns "walk canceled". `done` is closed only by `MD5All`'s deferred `close` (bounded.go:73, parallel.go:79), so the walk can see it only after `MD5All` has decided its result. `Bounded.MD5All` and `Parallel.MD5All` prove this.

## Model

| member | source | states |
|---|---|---|
| TicketSemaphore.New | semaphore/semaphore.go:43-48 | A new semaphore holds no tickets, its capacity is `tickets`, and it satisfies the invariant `held <= capacity`. |
| TicketSemaphore.Acquire | semaphore/semaphore.go:25-32 | Succeeds exactly when the buffer has room, and then holds one more ticket. Otherwise it returns `ErrNoTickets` and changes nothing. Preserves `held <= capacity`. |
| TicketSemaphore.Release | semaphore/semaphore.go:34-41 | Succeeds exactly when a ticket is held, and then holds one fewer. Otherwise it returns `ErrIllegalRelease` and changes nothing. Preserves `held <= capacity`. |
| TicketSemaphore.AcquireThenRelease | semaphore/semaphore.go:25-41 | A successful `Acquire` followed by `Release` succeeds and restores the prior state. |
| TicketSemaphore.ReleaseThenAcquire | semaphore/semaphore.go:25-41 | A successful `Release` followed by `Acquire` succeeds and restores the prior state. |
| TicketSemaphore.RunBalance | semaphore/semaphore.go:25-45 | Over any sequence of calls: held tickets = initial + successful acquires - successful releases. The buffer never exceeds its size and the capacity never changes. |
| TicketSemaphore.AcquiresWithoutRelease | semaphore/semaphore.go:25-31 | With no `Release` in between, the i-th `Acquire` succeeds exactly when `held + i < capacity`. Every other one fails with `ErrNoTickets`. |
| TicketSemaphore.OneTicketExample | semaphore/semaphore.go:52-70 | With one ticket: `Acquire` succeeds, a second `Acquire` fails with `ErrNoTickets`, and `Release` succeeds and leaves the semaphore empty. |
| Observer.Register | behavioral/observer/main.go:54-56 | The observer is registered afterwards. The key set is the old one plus that observer, so every other observer's membership is unchanged. |
| Observer.Deregister | behavioral/observer/main.go:58-60 | The observer is not registered afterwards. The key set is the old one minus exactly that observer. |
| Observer.RegisterTwice | behavioral/observer/main.go:44-56 | Registering the same observer twice gives the same registry, of the same size, as registering it once. |
| Observer.RegisterPresent | behavioral/observer/main.go:54-56 | Registering an observer that is already registered leaves the registry unchanged. |
| Observer.DeregisterAbsent | behavioral/observer/main.go:58-60 | Deregistering an observer that is not registered is a no-op. |
| Observer.RegisterThenDeregister | behavioral/observer/main.go:54-60 | Registering a new observer and then deregistering it restores the original registry. |
| Observer.Notify | behavioral/observer/main.go:62-66 | Each registered observer receives the event exactly once, and no one else receives it. The number of deliveries equals the number of observers. The registry is a value, so it is not changed. |
| Aggregator.Collect | concurrency/pipelines/digest/bounded.go:94-105 | If some record fails, the result is the first failing record's error. If none fails, the walk error is returned when there is one. Otherwise the result is a map whose keys are the records' paths, each holding the sum of the last record for that path. A map and an error are never returned together. |
| Aggregator.CollectOrderIndependent | concurrency/pipelines/digest/bounded.go:77-100 | Same records in another arrival order, with records for one path agreeing: success is the same and the map is equal. |
| Bounded.WalkFilesMeaning | concurrency/pipelines/digest/bounded.go:25-38 | The walk callback is equal to the reference `WalkSpec`. It sends the regular files in walk order up to the first failing entry, and stops before the file where done is seen. The error is `WalkCanceled` if done stopped the walk, otherwise the first entry error, otherwise none. |
| Bounded.WalkFilesSendsPrefix | concurrency/pipelines/digest/bounded.go:25-38 | The sent paths are a prefix of the regular files reached, so no non-regular entry and nothing after a failure is ever sent. The walk is error-free exactly when no entry fails and done is never seen. Its error is `WalkCanceled` exactly when done is seen at an emit point. |
| Bounded.RootWalkFails | concurrency/pipelines/digest/bounded.go:25-28 | An error on the first entry stops the walk at once, with that error and no path sent. |
| Bounded.Digester | concurrency/pipelines/digest/bounded.go:52-61 | One record per path taken. It carries that path, the digest of what was read, and the read error, so a read failure is never dropped. If done wins the send for the k-th record, k+1 paths are taken and k records are sent. |
| Bounded.MD5All | concurrency/pipelines/digest/bounded.go:68-106 | The result is never "walk canceled". |
| Bounded.MD5AllSucceedsIff | concurrency/pipelines/digest/bounded.go:94-105 | Succeeds exactly when no walk entry fails and every reached regular file reads without error. |
| Bounded.MD5AllComplete | concurrency/pipelines/digest/bounded.go:94-105 | If no walk entry fails and every regular file reads without error, `MD5All` succeeds in every arrival order. Its key set is exactly the set of regular-file paths, and each maps to the digest of its contents. |
| Bounded.MD5AllItemErrorWins | concurrency/pipelines/digest/bounded.go:95-98 | If some reached file fails to read, the result is an error, and that error is the read error of one of those files. This holds whatever the walk reports and in every arrival order. |
| Bounded.MD5AllWalkErrorLast | concurrency/pipelines/digest/bounded.go:101-104 | If every reached file reads without error, a failing walk entry's error is the result. |
| Bounded.RootInaccessible | concurrency/pipelines/digest/bounded.go:68-105 | With an inaccessible root, no record arrives and the result is the root's error. |
| Bounded.MD5AllOrderIndependent | concurrency/pipelines/digest/bounded.go:77-100 | Any two arrival orders give the same success or failure, and the same map on success. |
| Parallel.SumFilesMeaning | concurrency/pipelines/digest/parallel.go:32-55 | The walk callback is equal to the reference `SumSpec`. There is one task per regular file up to the first failing entry. The file at which done is seen still has its task started, because the walk checks done only after the spawn; the walk then returns `WalkCanceled`. |
| Parallel.OneTaskPerRegularFile | concurrency/pipelines/digest/parallel.go:36-47 | The number of tasks equals the number of regular files reached, or k+1 if done is seen after the k-th task. Task i carries the i-th regular path, the digest of its contents and its read error. |
| Parallel.SumFilesMatchesWalkFiles | concurrency/pipelines/digest/parallel.go:30-64 | Without cancellation, tasks start for exactly the paths the bounded walk sends, and the walk error is the same. |
| Parallel.MD5All | concurrency/pipelines/digest/parallel.go:74-94 | The result is never "walk canceled". |
| Parallel.MD5AllMatchesBounded | concurrency/pipelines/digest/parallel.go:83-93 | For every arrival order the result equals the bounded `MD5All`'s result, so every bounded property carries over. |

## Left out

- Goroutines, channels, `sync.WaitGroup`, the `select` races and `close(done)`: these are replaced by sequences, cancellation oracles and arbitrary arrival orders. Any permutation is allowed as an arrival order, which is more than the 20 digesters can actually produce. That is sound for the properties proved, which hold in every order.
- Sends that lose to the done signal after `MD5All` has returned (`parallel.go` lines 42-45): nothing reads them any more, so they have no observable effect.
- The semaphore's `time.After` timeouts: a timeout is the failure branch of a single caller.
- TicketSemaphore.New: drops the `timeout` argument and assumes it is long enough that the timer created by `time.After` (semaphore.go:29, :38) has not fired when the `select` checks its cases. With a zero, negative or very short timeout the timer can already be ready, so Go may pick it even when the hand-off could complete: `Acquire` can then return `ErrNoTickets` while the buffer has room, and `Release` can return `ErrIllegalRelease` while a ticket is held. The model does not cover that. A negative ticket count, on which `make` panics, is excluded by the `nat` parameter type.
- Observer.Register: does not model two panics of the Go code. Writing to the nil map of a zero-valued `eventNotifier{}` panics (`Deregister` and `Notify` on a nil map do nothing). Using an observer whose dynamic type is not comparable as a map key panics in `Register` and in `Deregister` (main.go:55, :59). The model's `Notifier` always holds a map and `O` always has equality. The program reaches neither panic: `main` always creates the map (main.go:70-72) and registers pointers (main.go:75-76).
- Concurrent callers of the semaphore: the state machine has one caller.
- The MD5 algorithm, `ioutil.ReadFile` and the order in which `filepath.Walk` visits entries: these are opaque parameters (`Hasher`, `FileReader`) and a given entry sequence. The `filepath.SkipDir` convention is not modelled, because no callback here returns it.
- The `main` functions: printing, sorting the result paths, and the ticker/timer loop. The only exception is the semaphore's `main`, which is the worked example `OneTicketExample`.
- `eventObserver.OnNotify`'s printing: a delivery is recorded as an `(observer, event)` pair.
- `Event.Data` is an `int64` in the source. The notifier passes it through without looking at it, so it is an unbounded `int` here.
- The context wrappers (`concurrency/context/...`) and the unbounded `simple`, `fanin` and `earlystop` pipelines: they are network code, wrappers over external libraries, or pure channel plumbing, and are not part of this model.
