/**
 * The error builder and server configuration of
 * `2_idioms/2_4_generic_in_type_out`: records built by value, each setter
 * returning the record with one field replaced, over newtypes that keep the
 * caller from mixing up codes, messages, statuses and counts.
 */
module ServerConfig {
  import opened Wrappers
  import opened Integers

  /** `Cow<'a, str>`: a string either borrowed for `'static` or owned. */
  datatype Cow = Borrowed(borrowed: string) | Owned(owned: string)
  {
    /** `AsRef<str>` / `Into<Cow>`'s reading: the characters, however they are held. */
    function AsStr(): string {
      match this
      case Borrowed(s) => s
      case Owned(s) => s
    }
  }

  /** `ErrorCode`: an internal error code. */
  datatype ErrorCode = ErrorCode(text: Cow)
  {
    /** `ErrorCode::from_static` (and `From<&'static str>`). */
    static function FromStatic(s: string): (c: ErrorCode)
      ensures c.AsStr() == s && c.text.Borrowed?
    {
      ErrorCode(Borrowed(s))
    }

    /** `ErrorCode::from_string` (and `From<String>`). */
    static function FromString(s: string): (c: ErrorCode)
      ensures c.AsStr() == s && c.text.Owned?
    {
      ErrorCode(Owned(s))
    }

    /** `AsRef<str>`. */
    function AsStr(): string {
      text.AsStr()
    }
  }

  /** `ErrorMessage`: a message safe to show to clients. */
  datatype ErrorMessage = ErrorMessage(text: Cow)
  {
    /** `ErrorMessage::from_static` (and `From<&'static str>`). */
    static function FromStatic(s: string): (m: ErrorMessage)
      ensures m.AsStr() == s && m.text.Borrowed?
    {
      ErrorMessage(Borrowed(s))
    }

    /** `ErrorMessage::from_string` (and `From<String>`). */
    static function FromString(s: string): (m: ErrorMessage)
      ensures m.AsStr() == s && m.text.Owned?
    {
      ErrorMessage(Owned(s))
    }

    /** `AsRef<str>`. */
    function AsStr(): string {
      text.AsStr()
    }
  }

  /** `HttpStatus` (and `From<u16>`). */
  datatype HttpStatus = HttpStatus(code: U16)

  /** The status a new error carries. */
  const DEFAULT_STATUS: U16 := 500

  /** The message a new error carries. */
  const DEFAULT_MESSAGE: string := "An unknown error occurred."

  /** `Error`: an error code, a status, a public message and optional private debug text. */
  datatype Error = Error(code: ErrorCode, status: HttpStatus, message: ErrorMessage, debugInfo: Option<Cow>)
  {
    /** `Error::new`: the given code, status 500, the generic message, and no debug text. */
    static function New(code: ErrorCode): (e: Error)
      ensures e.Code() == code.AsStr() && e.Status() == DEFAULT_STATUS
      ensures e.Message() == DEFAULT_MESSAGE && e.DebugInfo() == None
    {
      Error(code, HttpStatus(DEFAULT_STATUS), ErrorMessage.FromStatic(DEFAULT_MESSAGE), None)
    }

    /** `with_status`: a new status, every other field kept. */
    function WithStatus(status: HttpStatus): (e: Error)
      ensures e.Status() == status.code
      ensures e.code == code && e.message == message && e.debugInfo == debugInfo
    {
      this.(status := status)
    }

    /** `with_message`: a new message, every other field kept. */
    function WithMessage(message: ErrorMessage): (e: Error)
      ensures e.Message() == message.AsStr()
      ensures e.code == code && e.status == status && e.debugInfo == debugInfo
    {
      this.(message := message)
    }

    /** `with_debug_info`: debug text set, every other field kept. */
    function WithDebugInfo(info: Cow): (e: Error)
      ensures e.DebugInfo() == Some(info.AsStr())
      ensures e.code == code && e.status == status && e.message == message
    {
      this.(debugInfo := Some(info))
    }

    /** `code()`. */
    function Code(): string {
      code.AsStr()
    }

    /** `status()`. */
    function Status(): U16 {
      status.code
    }

    /** `message()`. */
    function Message(): string {
      message.AsStr()
    }

    /** `debug_info()`: the debug text, if any was set. */
    function DebugInfo(): Option<string> {
      match debugInfo
      case None => None
      case Some(info) => Some(info.AsStr())
    }
  }

  /** What an error reports through its getters; two errors that agree here are indistinguishable to a caller. */
  function Observed(e: Error): (string, U16, string, Option<string>) {
    (e.Code(), e.Status(), e.Message(), e.DebugInfo())
  }

  /** A code or a message reads the same whether it was made from a borrowed or an owned string. */
  lemma BorrowedOrOwnedReadsTheSame(s: string)
    ensures Observed(Error.New(ErrorCode.FromStatic(s))) == Observed(Error.New(ErrorCode.FromString(s)))
    ensures Observed(Error.New(ErrorCode.FromStatic(s)).WithMessage(ErrorMessage.FromStatic(s)))
         == Observed(Error.New(ErrorCode.FromStatic(s)).WithMessage(ErrorMessage.FromString(s)))
  {
  }

  /** The setters touch different fields, so the order of a builder chain does not matter. */
  lemma SettersCommute(e: Error, status: HttpStatus, message: ErrorMessage, info: Cow)
    ensures e.WithStatus(status).WithMessage(message) == e.WithMessage(message).WithStatus(status)
    ensures e.WithStatus(status).WithDebugInfo(info) == e.WithDebugInfo(info).WithStatus(status)
    ensures e.WithMessage(message).WithDebugInfo(info) == e.WithDebugInfo(info).WithMessage(message)
  {
  }

  /** Setting a field twice keeps the second value. */
  lemma LastSetterWins(e: Error, s1: HttpStatus, s2: HttpStatus, m1: ErrorMessage, m2: ErrorMessage, i1: Cow, i2: Cow)
    ensures e.WithStatus(s1).WithStatus(s2) == e.WithStatus(s2)
    ensures e.WithMessage(m1).WithMessage(m2) == e.WithMessage(m2)
    ensures e.WithDebugInfo(i1).WithDebugInfo(i2) == e.WithDebugInfo(i2)
  {
  }

  /** The errors the builder tests make report what was given, and the defaults for the rest. */
  lemma ErrorBuilderExamples()
    ensures Observed(Error.New(ErrorCode.FromStatic("NOT_FOUND")).WithMessage(ErrorMessage.FromStatic("Item not found")))
         == ("NOT_FOUND", 500, "Item not found", None)
    ensures Observed(Error.New(ErrorCode.FromString("TIMEOUT")).WithMessage(ErrorMessage.FromString("Request timed out")))
         == ("TIMEOUT", 500, "Request timed out", None)
    ensures Observed(Error.New(ErrorCode.FromStatic("INTERNAL_ERROR"))
                       .WithMessage(ErrorMessage.FromStatic("Something went wrong"))
                       .WithDebugInfo(Borrowed("Database connection failed")))
         == ("INTERNAL_ERROR", 500, "Something went wrong", Some("Database connection failed"))
    ensures Error.New(ErrorCode.FromStatic("BAD_REQUEST")).WithStatus(HttpStatus(400))
              .WithMessage(ErrorMessage.FromStatic("Bad request")).Status() == 400
    ensures Error.New(ErrorCode.FromStatic("NO_USER")).WithStatus(HttpStatus(404))
              .WithMessage(ErrorMessage.FromStatic("User not found")).Status() == 404
  {
  }

  /** `WorkerCount`: a number of worker threads. */
  datatype WorkerCount = WorkerCount(count: USize)
  {
    /** `WorkerCount::new`: refuses zero. */
    static function New(count: USize): (r: Option<WorkerCount>)
      ensures r.Some? <==> count > 0
      ensures r.Some? ==> r.value.Get() == count
    {
      if count > 0 then Some(WorkerCount(count)) else None
    }

    /** `get`. */
    function Get(): USize {
      count
    }
  }

  /** `MaxConnections`: a limit on open connections. */
  datatype MaxConnections = MaxConnections(count: USize)
  {
    /** `MaxConnections::new`: refuses zero. */
    static function New(count: USize): (r: Option<MaxConnections>)
      ensures r.Some? <==> count > 0
      ensures r.Some? ==> r.value.Get() == count
    {
      if count > 0 then Some(MaxConnections(count)) else None
    }

    /** `get`. */
    function Get(): USize {
      count
    }
  }

  /** `IpAddr`: four octets, or eight 16-bit segments. */
  datatype IpAddr = V4(a: U8, b: U8, c: U8, d: U8) | V6(segments: seq<U16>)

  /** `SocketAddr::new`: an IP address and a port. */
  datatype SocketAddr = SocketAddr(ip: IpAddr, port: U16)

  /** The connection limit a server starts with. */
  const DEFAULT_MAX_CONNECTIONS: USize := 10_000

  /** Why `validate` refuses a configuration, in the order it checks. */
  datatype ValidationError = MissingAddress | InvalidWorkers | InvalidMaxConnections

  /**
   * `Server`. Its counts are built with the unchecked `From<usize>`, as the
   * default and the tests build them, so a zero count can reach `validate`.
   */
  datatype Server = Server(address: Option<SocketAddr>, workers: WorkerCount, maxConnections: MaxConnections)
  {
    /**
     * `Server::default`: no address, `cpus` workers and 10 000 connections.
     * `cpus` stands for `num_cpus_estimate()`, which reads the environment.
     */
    static function Default(cpus: USize): (s: Server)
      ensures s.Address() == None && s.Workers() == cpus && s.ConnectionLimit() == DEFAULT_MAX_CONNECTIONS
    {
      Server(None, WorkerCount(cpus), MaxConnections(DEFAULT_MAX_CONNECTIONS))
    }

    /** `Server::bind`: the default configuration listening on `ip:port`. */
    static function Bind(ip: IpAddr, port: U16, cpus: USize): (s: Server)
      ensures s.Address() == Some(SocketAddr(ip, port))
      ensures s.Workers() == cpus && s.ConnectionLimit() == DEFAULT_MAX_CONNECTIONS
    {
      Default(cpus).(address := Some(SocketAddr(ip, port)))
    }

    /** `Server::bind_addr`: the default configuration listening on `addr`. */
    static function BindAddr(addr: SocketAddr, cpus: USize): (s: Server)
      ensures s.Address() == Some(addr)
      ensures s.Workers() == cpus && s.ConnectionLimit() == DEFAULT_MAX_CONNECTIONS
    {
      Default(cpus).(address := Some(addr))
    }

    /** `with_workers`: a new worker count, every other field kept. */
    function WithWorkers(count: WorkerCount): (s: Server)
      ensures s.Workers() == count.Get()
      ensures s.address == address && s.maxConnections == maxConnections
    {
      this.(workers := count)
    }

    /** `with_max_connections`: a new connection limit, every other field kept. */
    function WithMaxConnections(max: MaxConnections): (s: Server)
      ensures s.ConnectionLimit() == max.Get()
      ensures s.address == address && s.workers == workers
    {
      this.(maxConnections := max)
    }

    /** `address()`. */
    function Address(): Option<SocketAddr> {
      address
    }

    /** `workers()`. */
    function Workers(): USize {
      workers.Get()
    }

    /** `max_connections()`. */
    function ConnectionLimit(): USize {
      maxConnections.Get()
    }

    /** `validate`: the first of the three checks that fails, or `Pass`. */
    function Validate(): (r: Outcome<ValidationError>)
      ensures r == Fail(MissingAddress) <==> Address().None?
      ensures r == Fail(InvalidWorkers) <==> Address().Some? && Workers() == 0
      ensures r == Fail(InvalidMaxConnections) <==> Address().Some? && Workers() > 0 && ConnectionLimit() == 0
      ensures r == Pass <==> Address().Some? && Workers() > 0 && ConnectionLimit() > 0
    {
      if address.None? then Fail(MissingAddress)
      else if workers.Get() == 0 then Fail(InvalidWorkers)
      else if maxConnections.Get() == 0 then Fail(InvalidMaxConnections)
      else Pass
    }
  }

  /** The two bind constructors agree: binding to `ip` and `port` is binding to their socket address. */
  lemma BindIsBindAddr(ip: IpAddr, port: U16, cpus: USize)
    ensures Server.Bind(ip, port, cpus) == Server.BindAddr(SocketAddr(ip, port), cpus)
  {
  }

  /**
   * A bound server whose counts come from the checked `new` constructors
   * always validates; only the unchecked conversions or a zero CPU estimate
   * can make it fail.
   */
  lemma CheckedCountsValidate(addr: SocketAddr, cpus: USize, workers: USize, max: USize)
    requires WorkerCount.New(workers).Some? && MaxConnections.New(max).Some?
    ensures Server.BindAddr(addr, cpus).WithWorkers(WorkerCount.New(workers).value)
              .WithMaxConnections(MaxConnections.New(max).value).Validate() == Pass
    ensures Server.BindAddr(addr, cpus).Validate() == Pass <==> cpus > 0
  {
  }

  /** A server that was never bound is refused for its address, whatever else is wrong with it. */
  lemma UnboundRefused(cpus: USize, workers: WorkerCount, max: MaxConnections)
    ensures Server.Default(cpus).WithWorkers(workers).WithMaxConnections(max).Validate() == Fail(MissingAddress)
  {
  }

  /** The configurations of the server tests. */
  lemma ServerExamples(cpus: USize)
    requires cpus > 0
    ensures Server.Bind(V4(127, 0, 0, 1), 8080, cpus).Address() == Some(SocketAddr(V4(127, 0, 0, 1), 8080))
    ensures Server.Bind(V4(127, 0, 0, 1), 8080, cpus).WithWorkers(WorkerCount(8))
              .WithMaxConnections(MaxConnections(20_000)).Workers() == 8
    ensures Server.Bind(V4(127, 0, 0, 1), 8080, cpus).WithWorkers(WorkerCount(8))
              .WithMaxConnections(MaxConnections(20_000)).ConnectionLimit() == 20_000
    ensures Server.Bind(V4(127, 0, 0, 1), 8080, cpus).Validate() == Pass
    ensures Server.Default(cpus).Validate() == Fail(MissingAddress)
  {
  }
}
