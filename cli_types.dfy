/**
 * Values shared by the CLI server model: the per-connection session, handler
 * registrations, the collaborators the server calls but does not implement
 * (the command-table matcher, the hooks, the line source, the wire write) and
 * the observable effects the server produces.
 */
module CliTypes {

  datatype Option<+T> = None | Some(value: T)

  /** The three result codes the server itself tells apart (values of Varnish's cli.h). */
  const ClisUnknown: int := 101
  const ClisOk: int := 200
  const ClisClose: int := 500

  /** A C string: the text the line source hands over ends at its terminating NUL. */
  type CString = s: string | '\0' !in s

  /** A nonzero status, as returned by a line source on a failed read. */
  type NonZero = x: int | x != 0 witness -1

  /**
   * The per-connection protocol state (struct cli): the command being served
   * (cmd, NULL between commands), the pending result code, the response
   * buffer, the privilege level and the optional identifier.
   */
  datatype Session = Session(cmd: Option<string>, result: int, body: string, auth: nat, ident: Option<string>)

  /** A freshly allocated session: ALLOC_OBJ zero-fills the structure. */
  function NewSession(): Session
  {
    Session(None, 0, [], 0, None)
  }

  /** An opaque reference to a command table (struct cli_proto *). */
  datatype Table = Table(id: nat)

  /** One entry of the handler registry: the privilege it needs and its table. */
  datatype Registration = Registration(auth: nat, table: Table)

  /** What the command-table matcher leaves in the session: a result code and a response body. */
  datatype Reply = Reply(result: int, body: string)

  /**
   * The command-table matcher cli_dispatch: given a table, the command text
   * and the session (result preset to OK, buffer cleared), it yields the new
   * result code and response buffer.
   */
  type Dispatcher = (Table, string, Session) -> Reply

  /** A pre- or post-dispatch hook; it may inspect and change the whole session. */
  type Hook = Session -> Session

  /** What the per-line handler reads from the server. */
  datatype Config = Config(funcs: seq<Registration>, before: Option<Hook>, after: Option<Hook>, dispatch: Dispatcher)

  /**
   * One line delivered by the line source, together with the outcome the
   * environment gives to the write of its response (false: cli_writeres failed).
   */
  datatype Line = Line(text: CString, writeOk: bool)

  /** What one feed of the line source (VLU_Fd) does: fail, or deliver whole lines in order. */
  datatype FeedInput = ReadFailed(code: NonZero) | Delivered(lines: seq<Line>)

  /** What the readiness wait reports for one connection's slot. */
  datatype Readiness = Hangup | Readable(input: FeedInput)

  /** How a connection is torn down: close its descriptors, or call closefunc(priv). */
  datatype Teardown = CloseDescriptors | CloseFunc(closefunc: nat, priv: nat)

  /** The effects the server has on the outside world, in the order it has them. */
  datatype Event =
    | BeforeHook
    | Dispatched(index: nat)
    | AfterHook
    | Wrote(fd: nat, result: int, body: string)
    | ClosedFd(fd: nat)
    | CloseFuncCalled(closefunc: nat, priv: nat)

  /** The result of a poll call; the empty server is told apart from every count. */
  datatype PollResult = NoConnections | Returned(value: int)

  /** Regrouping a chain of concatenations; used to line up logs of effects. */
  lemma AppendAssoc<T>(a: seq<T>, b: seq<T>, c: seq<T>)
    ensures (a + b) + c == a + (b + c)
  {
  }

  lemma AppendAssoc4<T>(a: seq<T>, b: seq<T>, c: seq<T>, d: seq<T>, e: seq<T>)
    ensures a + b + c + d + e == a + (b + c + d + e)
  {
  }

  /** A sequence split around its element at position |a|. */
  lemma SplitAround<T>(a: seq<T>, x: T, b: seq<T>)
    ensures (a + ([x] + b))[..|a|] == a && (a + ([x] + b))[|a|] == x && (a + ([x] + b))[|a| + 1..] == b
  {
  }

  lemma SliceCons<T>(s: seq<T>, i: nat)
    requires i < |s|
    ensures s[i..] == [s[i]] + s[i + 1..]
  {
  }

  lemma SliceWhole<T>(s: seq<T>)
    ensures s[..|s|] == s && s[|s|..] == []
  {
  }
}
