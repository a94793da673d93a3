# Varnish CLI server: a Dafny model

This project models the command-line-interface server of Varnish,
`lib/libvarnish/cli_serve.c`, and proves properties of the model. The server
keeps two ordered lists behind a `struct cls`:

- the connections (`struct cls_fd`), each with an input and an output
  descriptor, a teardown choice and a protocol session (`struct cli`);
- the handler registrations (`struct cls_func`), each with a privilege level
  and a command table.

For each line that arrives on a connection, `cls_vlu`:

- skips leading white space and ignores the line if nothing is left;
- stores the command and runs the optional `before` hook;
- walks the registrations in order, skipping every registration whose
  privilege is strictly greater than the session's;
- gives each registration it tries a cleared buffer and the result preset to
  OK, and stops at the first one that leaves the result other than UNKNOWN;
- runs the optional `after` hook and writes the response;
- asks for the connection to be closed when the write fails or the result is
  CLOSE, and otherwise resets the command.

`CLS_Poll` and `CLS_PollFd` feed connections, and tear down the ones that
hang up or whose feed returns nonzero: a failed read, or a line whose
handling asks for close. `CLS_Destroy` tears everything
down.

The project has three modules:

- `CliTypes` (`cli_types.dfy`) holds the values: sessions, registrations,
  the collaborator types, and the log of effects on the outside world.
- `CliDispatch` (`cli_dispatch.dfy`) states `cls_vlu` as functions on
  values. These are the registry walk `Search`, the line step `ServeLine` and
  the line source's delivery `FeedLines`, with lemmas about gating, first
  match, unknown commands and response-before-close.
- `CliServe` (`cli_serve.dfy`) holds the imperative server. The classes
  `Connection` and `Server` have `seq` fields that their methods update in
  place, and the loops carry invariants. The per-line handler, the registry
  walk and the feed are proved to compute the functions of `CliDispatch`, and
  the traversal of `CLS_Poll` the pass function `Pass`. The other methods
  (`AddFd`, `AddFunc`, `CloseConn`, `PollFd`, `Destroy`) state their new state
  directly, or through the list functions `Remove`, `FirstOwner`,
  `TeardownEvents`, `AllTeardowns` and `SlotResult`.

The effects are recorded in a ghost log of `Event`s, in order:

- hook calls;
- matcher calls;
- writes;
- descriptor closes;
- `closefunc` calls.

A ghost list `torn` records the connections torn down. `Server.Valid()`
says:

- the counter `nfd` equals the length of the connection list;
- no connection is on the list twice;
- no connection is torn down twice;
- no listed connection has been torn down.

Every method keeps `Valid()`.

The collaborators are parameters:

- The command-table matcher `cli_dispatch` is a function from (table,
  command, session) to a result code and a body.
- The hooks are functions from session to session.
- The outcome of the wire write is given with each line.
- What the readiness wait reports is given per slot: a hangup, or a feed of
  the line source, which either fails with a nonzero status or delivers whole
  lines.

## Model

| member | source | states |
|---|---|---|
| CliDispatch.SkipSpace | lib/libvarnish/cli_serve.c:94-96 | the position found is the first one that is not white space: everything before it is white space, and it is the end or a non-space character |
| CliDispatch.Command | lib/libvarnish/cli_serve.c:94-100 | definition: the command is the line without its leading white space; an empty command is the ignored line; properties in SkipSpace and ServeLine |
| CliDispatch.SkipSpaceUnique | lib/libvarnish/cli_serve.c:94-96 | those two properties single out one position, so the skip has exactly one possible result |
| CliDispatch.VisibleInRange | lib/libvarnish/cli_serve.c:107-109 | the list of reachable registrations holds only indices of the range whose privilege is at most the session's |
| CliDispatch.VisibleIncreasing | lib/libvarnish/cli_serve.c:107 | the list of reachable registrations is in strictly increasing registry order |
| CliDispatch.VisibleComplete | lib/libvarnish/cli_serve.c:107-109 | every index of the range whose privilege is at most the session's (equality included) is on that list |
| CliDispatch.Search | lib/libvarnish/cli_serve.c:107-115 | definition of the gated, first-match registry walk; properties in SearchGated, SearchFirstMatch, SearchNoMatch and SearchUnknownIff |
| CliDispatch.Prepared | lib/libvarnish/cli_serve.c:102-106 | definition of the session the walk starts from: command stored, before hook run, buffer cleared, result UNKNOWN; used by ServeLine, ServeLineGating and ServeLineFirstMatch |
| CliDispatch.SearchGated | lib/libvarnish/cli_serve.c:107-115 | the walk tries only registrations with privilege at most the session's (strict greater-than gating), each at most once and in registry order, and changes only the session's result and buffer |
| CliDispatch.SearchFirstMatch | lib/libvarnish/cli_serve.c:107-115 | when w is the first reachable registration whose answer is not UNKNOWN, exactly the reachable registrations up to w are tried, and w's answer, even an error code, is the final result and body |
| CliDispatch.SearchNoMatch | lib/libvarnish/cli_serve.c:105-115 | when no reachable registration answers other than UNKNOWN, every reachable one is tried and the result is UNKNOWN; when none is reachable the session is untouched |
| CliDispatch.SearchUnknownIff | lib/libvarnish/cli_serve.c:106-115 | starting from UNKNOWN, the walk ends with UNKNOWN if and only if no reachable registration answers otherwise |
| CliDispatch.ServeLine | lib/libvarnish/cli_serve.c:94-123 | an empty line changes nothing: no hook, no matcher call, no write; any other line ends by writing the final result and body on fdo; close is asked for exactly when the write fails or the result is CLOSE; otherwise the command is reset |
| CliDispatch.ServeLineGating | lib/libvarnish/cli_serve.c:103-109 | for a whole line, every matcher call is on a registered index whose privilege is at most the session's when the walk starts, that is, after the before hook |
| CliDispatch.ServeLineFirstMatch | lib/libvarnish/cli_serve.c:102-121 | for a whole line, the effects are the before hook, the matcher calls on exactly the reachable registrations up to the first match, the after hook, and the write of that match's answer as the after hook leaves it |
| CliDispatch.ServeLineFirstMatchNoAfter | lib/libvarnish/cli_serve.c:102-121 | without an after hook, what is written is the first definitive answer itself, even an error code |
| CliDispatch.ServeLineUnknown | lib/libvarnish/cli_serve.c:105-121 | for a whole line without an after hook, the written result is UNKNOWN if and only if no reachable registration answers otherwise; with none reachable the written body is empty |
| CliDispatch.Handler | lib/libvarnish/cli_serve.c:155 | definition: cls_vlu as the per-line callback registered with the line source of a connection; properties in HandlerWritesBeforeClose and FeedClosesAfterWrite |
| CliDispatch.FeedLines | lib/libvarnish/cli_serve.c:236 | the line source returns 0 or 1, and 1 only when some line was delivered |
| CliDispatch.FeedStopsAtClose | lib/libvarnish/cli_serve.c:120-121 | once a line's callback asks for close, later lines are never served |
| CliDispatch.FeedCompose | lib/libvarnish/cli_serve.c:122-123 | lines after one that did not ask for close are served from the session that line left |
| CliDispatch.FeedEndsWithClosingStep | lib/libvarnish/cli_serve.c:120-121 | for any per-line callback, a feed that returns nonzero ends with the effects of a delivered line whose callback asked for close: its log is some prefix followed by exactly that step's effects |
| CliDispatch.HandlerWritesBeforeClose | lib/libvarnish/cli_serve.c:120-121 | when cls_vlu asks for close, its last effect is the write on fdo |
| CliDispatch.FeedClosesAfterWrite | lib/libvarnish/cli_serve.c:120-121 | when cls_vlu makes a feed return nonzero, the write of the response on fdo is the last effect, so the response is written before the close signal |
| CliDispatch.FeedResult | lib/libvarnish/cli_serve.c:236 | a failed read returns exactly its nonzero status and serves nothing; a zero return means lines were delivered |
| CliServe.Connection.constructor | lib/libvarnish/cli_serve.c:149-158 | a new connection keeps its descriptors and teardown choice and starts with a zero-filled session |
| CliServe.TeardownEvents | lib/libvarnish/cli_serve.c:176-182 | without a closefunc, fdi and fdo are each closed exactly once (fdo is not closed again when it equals fdi) and nothing else happens; with one, only closefunc(priv) is called |
| CliServe.AllTeardowns | lib/libvarnish/cli_serve.c:295-296 | tearing down a list of connections closes the descriptors of, or calls the closefunc of, each of them |
| CliServe.Remove | lib/libvarnish/cli_serve.c:172 | unlinking shortens the list by one and keeps the others; on a list without repeats the connection is gone and no other is lost |
| CliServe.RemoveAt | lib/libvarnish/cli_serve.c:172 | unlinking the connection at position k closes the gap and keeps the order of the rest |
| CliServe.RemoveAppended | lib/libvarnish/cli_serve.c:160-173 | unlinking a connection just appended at the tail gives back the earlier list, so adding then closing a connection undo each other |
| CliServe.FirstOwner | lib/libvarnish/cli_serve.c:217-227 | the connection chosen is the first on the list whose input descriptor is fd |
| CliServe.SlotResult | lib/libvarnish/cli_serve.c:233-236 | a hangup asks for close without reading or serving; a zero return means the line source delivered lines |
| CliServe.PassPartition | lib/libvarnish/cli_serve.c:270-279 | a pass of CLS_Poll splits the connections: the kept and the torn-down ones are all from the list, and together they number as many as the list |
| CliServe.PassKeptIff | lib/libvarnish/cli_serve.c:270-279 | after a pass a connection is still registered if and only if its slot and feed returned 0 |
| CliServe.PassClosedIff | lib/libvarnish/cli_serve.c:270-279 | after a pass a connection is torn down if and only if its slot or feed returned nonzero |
| CliServe.PassMembership | lib/libvarnish/cli_serve.c:270-279 | after a pass a connection is still registered if and only if its slot and feed returned 0, and is torn down if and only if they returned nonzero; a hung-up connection is always torn down |
| CliServe.PassKeepsOrder | lib/libvarnish/cli_serve.c:270-279 | the connections a pass keeps stay in their original relative order |
| CliServe.Server.Valid | lib/libvarnish/cli_serve.c:160-173 | definition of the invariant every method keeps: the counter equals the length of the connection list, no connection is listed twice or torn down twice, and no listed connection has been torn down |
| CliServe.Pass | lib/libvarnish/cli_serve.c:270-279 | definition of one removal-safe pass of CLS_Poll; properties in PassPartition, PassKeptIff, PassClosedIff, PassMembership and PassKeepsOrder |
| CliServe.Server.constructor | lib/libvarnish/cli_serve.c:126-139 | CLS_New gives an empty server (no connections, counter 0, no registrations) with the given hooks and line length limit |
| CliServe.Server.AddFd | lib/libvarnish/cli_serve.c:141-163 | CLS_AddFd, for descriptors >= 0, appends a fresh connection at the tail with a zero-filled session, increments the counter, keeps Valid and changes nothing else |
| CliServe.Server.AddFunc | lib/libvarnish/cli_serve.c:189-201 | CLS_AddFunc appends the registration at the tail of the registry and returns 0 |
| CliServe.Server.TryRegistration | lib/libvarnish/cli_serve.c:110-114 | one registration's turn: the session gets that registration's answer to the cleared, OK-preset session, and the walk stops exactly when the answer is not UNKNOWN |
| CliServe.Server.WalkRegistry | lib/libvarnish/cli_serve.c:107-115 | the loop over the registry leaves the session that Search computes and logs exactly the matcher calls Search tries |
| CliServe.Server.HandleLine | lib/libvarnish/cli_serve.c:83-124 | cls_vlu returns 1 exactly when ServeLine asks for close, leaves ServeLine's session and has ServeLine's effects in order |
| CliServe.Server.LineSourceFeed | lib/libvarnish/cli_serve.c:236 | one feed with cls_vlu as callback returns, leaves and logs exactly what FeedResult computes |
| CliServe.Server.CloseConn | lib/libvarnish/cli_serve.c:165-186 | cls_close_fd unlinks exactly that connection, decrements the counter, has exactly its teardown effects, keeps Valid, leaves the registry alone and records the connection as torn down once |
| CliServe.Server.PollFd | lib/libvarnish/cli_serve.c:203-240 | an empty server gives NoConnections; j <= 0 returns j and changes nothing; otherwise only the first connection owning fd is serviced, it returns the feed's result and is torn down exactly when that is nonzero, and no other connection's session changes |
| CliServe.Server.ServeSlot | lib/libvarnish/cli_serve.c:233-236 | servicing a slot returns, leaves and logs exactly what SlotResult computes |
| CliServe.Server.Poll | lib/libvarnish/cli_serve.c:242-283 | an empty server gives NoConnections; j <= 0 returns j and changes nothing; otherwise every connection is serviced in list order, the list, the log and the torn-down list become those of Pass, each connection's session becomes its slot's outcome, and j is returned |
| CliServe.Server.PollPass | lib/libvarnish/cli_serve.c:269-279 | the removal-safe traversal of CLS_Poll leaves exactly the kept connections of Pass, its effects and its torn-down connections, and each connection's session is its slot's outcome |
| CliServe.Server.PollLoop | lib/libvarnish/cli_serve.c:269-279 | after the traversal, every connection has been serviced in list order as Pass describes, and each session is its slot's outcome |
| CliServe.Server.PollStep | lib/libvarnish/cli_serve.c:271-278 | one iteration services connection i, tears it down exactly when the slot or feed returned nonzero, and extends what Pass describes by that connection; only its session changes |
| CliServe.Server.Destroy | lib/libvarnish/cli_serve.c:285-304 | CLS_Destroy tears down every connection in list order, each exactly once, then empties the connection list, the counter and the registry |

## Left out

- The readiness wait `poll(2)` (lines 230 and 266) and its `revents` are not modelled. For `CLS_Poll` the model takes poll's return value `j` and one slot per connection as inputs. For `CLS_PollFd` it takes `j` and one slot.
- The `pollfd` arrays are reduced. `CLS_Poll` collects the input descriptors of its connections in a loop; `CLS_PollFd` only looks up its connection. The `events` and `revents` fields are not modelled.
- CliServe.Server.Poll: the assertion `i == j` at line 280 is not modelled. It ties the number of connections visited to poll's ready count, which the kernel decides. The model returns `j` after visiting every connection.
- CliServe.Server.Poll: every connection whose slot is not a hangup is fed, as the code is written. That includes connections poll did not report ready.
- CliServe.Server.PollFd: when several connections share the input descriptor `fd`, the code takes the first of them. The model requires only that one exists, which is what the code asserts at line 227.
- The line source `VLU_New`, `VLU_Fd` and `VLU_Destroy` is not modelled in detail; `lib/libvarnish/vlu.c` is not part of this model. A feed either fails with a nonzero status or delivers whole lines in order. The lines are handed to `cls_vlu` until one returns nonzero, and the feed then returns 1. The `maxlen` line limit is stored but has no effect.
- The response buffer `vsb` is modelled as a string: clearing it empties it. The overflow check `AZ(vsb_overflowed(...))` at line 117 and the `vsb_finish` call at line 116 are not modelled.
- The matcher `cli_dispatch` is modelled as a function that sets only the result code and the body. It cannot change the command, the privilege or the identifier.
- Lines are Dafny strings of Unicode characters, while the C code passes bytes to `isspace`. `IsSpace` is fixed to the six white-space characters of the C locale (space, tab, newline, vertical tab, form feed, carriage return); other locales are not modelled.
- The wire write `cli_writeres` is not modelled; only whether it failed is given, per line.
- The numeric result codes (UNKNOWN 101, OK 200, CLOSE 500) come from `cli.h`, which is not part of this model.
- `errno` is not modelled. The empty-server branch of both poll functions returns the distinct value `NoConnections` instead of -1 with `errno` 0.
- Memory management (`ALLOC_OBJ`, `FREE_OBJ`, `free` of the identifier) is not modelled. Neither are the magic-number checks, which Dafny's types replace. The model has no null server and no double destroy: after `Destroy` the object still exists with empty lists.
- `nfd` is a `nat`, not an unsigned 32-bit counter. Wrap-around needs 2^32 connections and is not modelled.
- Closing descriptors and calling `closefunc(priv)` appear only as events in the ghost log. Their own effects are not modelled. Function and private-data pointers are opaque numbers.
