/**
 The chat server as a function of its state: the slot table, the user table, and the bytes written to each
 connection.  One accepted connection, one line of input, one cleanup or one timeout sweep is one step.
 */
module ChatServer {
  import opened Common
  import opened CText
  import opened JsonLines
  import RateLimit
  import Tokens

  const MAX_CLIENTS: nat := 1000
  const BUFFER_SIZE: nat := 8192
  const CONNECTION_TIMEOUT: int := 300
  const MAX_NICK_LENGTH: nat := 31

  /** The identity of a TLS connection; a file descriptor number may be used again, this may not. */
  type Conn = nat

  /** The buffers of a slot that hold key material. */
  datatype Key = SessionKey | ChachaKey | TwofishKey | PublicKey | SharedSecret | SessionToken

  /** What a handler fills when it starts, and what the two ways to end a connection wipe. */
  const HANDLER_KEYS: set<Key> := {SessionKey, ChachaKey, PublicKey, SessionToken}
  const CLEANUP_KEYS: set<Key> := {SessionKey, ChachaKey, PublicKey, SharedSecret, SessionToken}
  const DISCONNECT_KEYS: set<Key> := {SessionKey, ChachaKey, TwofishKey}

  /** `keys` are the buffers that are filled; their contents are not modelled. */
  datatype Slot = Slot(
    fd: int, ssl: Option<Conn>, nick: string, token: string, authorized: bool,
    last_activity: int, limit: RateLimit.Limiter, session_id: nat, security_level: nat, keys: set<Key>)

  const FREE_SLOT: Slot := Slot(-1, None, "", "", false, 0, RateLimit.Limiter(0, 0), 0, 0, {})

  datatype Account = Account(nick: string, token: string, security_level: nat)

  /**
   `users` is the table of accounts under their lower-case nicks, `out` what was written to each connection and
   not read yet, `open` the accepted descriptors that are not closed, `granted` the logins that were answered
   with success, and `next` the next unused connection.
   */
  datatype Server = Server(
    slots: seq<Slot>, users: map<string, Account>, out: map<Conn, string>,
    open: set<int>, granted: map<Conn, string>, next: Conn)

  function Initial(): Server {
    Server(seq(MAX_CLIENTS, _ => FREE_SLOT), map[], map[], {}, map[], 0)
  }

  /**
   What a step takes from outside: clock, random bytes, whether a database query and an insertion go through,
   the encrypted text.
   */
  datatype Env = Env(now: int, random: Option<seq<byte>>, query: bool, insert: bool, cipher: Option<string>)

  ghost predicate ValidEnv(env: Env) {
    && (env.random.Some? ==> |env.random.value| == Tokens.TOKEN_LENGTH / 2)
    && (env.cipher.Some? ==> Unquoted(env.cipher.value))
  }

  // ---------------------------------------------------------------------------------------------
  // Names
  // ---------------------------------------------------------------------------------------------

  function LowerChar(c: char): char {
    if 'A' <= c <= 'Z' then (c as int - 'A' as int + 'a' as int) as char else c
  }

  /** The NOCASE collation compares nicks by this. */
  function Lower(s: string): (r: string)
    ensures |r| == |s| && forall k :: 0 <= k < |s| ==> r[k] == LowerChar(s[k])
  {
    seq(|s|, k requires 0 <= k < |s| => LowerChar(s[k]))
  }

  predicate NickChar(c: char) {
    'a' <= c <= 'z' || 'A' <= c <= 'Z' || '0' <= c <= '9' || c == '_' || c == '-' || c == '.'
  }

  const FORBIDDEN := ["admin", "root", "system", "server", "null", "undefined"]

  predicate ValidNick(nick: string) {
    3 <= |nick| <= MAX_NICK_LENGTH && (forall c :: c in nick ==> NickChar(c)) && Lower(nick) !in FORBIDDEN
  }

  function Decimal(n: nat): string {
    if n < 10 then ['0' + n as char] else Decimal(n / 10) + ['0' + (n % 10) as char]
  }

  // ---------------------------------------------------------------------------------------------
  // Writing
  // ---------------------------------------------------------------------------------------------

  function Sent(s: Server, c: Conn): string {
    if c in s.out then s.out[c] else ""
  }

  function Write(s: Server, c: Conn, text: string): Server {
    s.(out := s.out[c := Sent(s, c) + text])
  }

  function WriteSlot(s: Server, i: nat, text: string): Server
    requires i < |s.slots|
  {
    if s.slots[i].ssl.Some? then Write(s, s.slots[i].ssl.value, text) else s
  }

  predicate IsOnline(slot: Slot) {
    slot.fd >= 0 && slot.authorized
  }

  /** A text to every online slot below `n`. */
  function WriteOnline(s: Server, text: string, n: nat): Server
    requires n <= |s.slots|
    ensures WriteOnline(s, text, n).slots == s.slots
  {
    if n == 0 then s
    else
      var s1 := WriteOnline(s, text, n - 1);
      if IsOnline(s.slots[n - 1]) then WriteSlot(s1, n - 1, text) else s1
  }

  function ErrorPairs(message: string): seq<Pair> {
    [("type", JStr("error")), ("message", JStr(message))]
  }

  function ResultPairs(command: string, message: string): seq<Pair> {
    [("type", JStr(command)), ("status", JStr("error")), ("message", JStr(message))]
  }

  /** `snprintf` into a buffer of 8192. */
  function Printed(pairs: seq<Pair>): string
    requires pairs != []
  {
    Cut(Line(pairs), BUFFER_SIZE - 1)
  }

  function Broadcast(s: Server, sender: string, message: string): Server {
    var line := Printed([("type", JStr("message")), ("from", JStr(sender))] + [("text", JStr(message))]);
    WriteOnline(s, line, |s.slots|)
  }

  /** `find_client_by_nick`. */
  function FindOnline(slots: seq<Slot>, nick: string): (r: Option<nat>)
    ensures r.Some? ==> r.value < |slots| && IsOnline(slots[r.value]) && slots[r.value].nick == nick
    ensures r.Some? ==> forall k :: 0 <= k < r.value ==> !(IsOnline(slots[k]) && slots[k].nick == nick)
    ensures r.None? ==> forall k :: 0 <= k < |slots| ==> !(IsOnline(slots[k]) && slots[k].nick == nick)
  {
    if slots == [] then None
    else if IsOnline(slots[0]) && slots[0].nick == nick then Some(0)
    else match FindOnline(slots[1..], nick) case None => None case Some(k) => Some(k + 1)
  }

  function OnlineNicks(slots: seq<Slot>): seq<string> {
    if slots == [] then []
    else
      OnlineNicks(slots[..|slots| - 1]) + if IsOnline(slots[|slots| - 1]) then [slots[|slots| - 1].nick] else []
  }

  // ---------------------------------------------------------------------------------------------
  // Commands
  // ---------------------------------------------------------------------------------------------

  predicate TokenUsed(users: map<string, Account>, token: string) {
    exists k :: k in users && users[k].token == token
  }

  function Register(s: Server, i: nat, command: string, env: Env): Server
    requires i < |s.slots| && "/register" <= command
  {
    var nick := ScanWord(SkipSpaces(command[9..]), 31);
    if !ValidNick(nick) then WriteSlot(s, i, Line(ResultPairs("register", "Invalid nickname")))
    else if env.query && Lower(nick) in s.users then
      WriteSlot(s, i, Line(ResultPairs("register", "Nickname already exists")))
    else if env.random.None? then s
    else
      var token := Tokens.Token(env.random.value);
      if env.insert && Lower(nick) !in s.users && !TokenUsed(s.users, token) then
        var s1 := s.(users := s.users[Lower(nick) := Account(nick, token, s.slots[i].security_level)]);
        WriteSlot(s1, i, Line(RegisteredPairs(nick, token, s.slots[i].security_level)))
      else WriteSlot(s, i, Line(ResultPairs("register", "Database error")))
  }

  function RegisteredPairs(nick: string, token: string, level: nat): seq<Pair> {
    [("type", JStr("register")), ("status", JStr("success")), ("nick", JStr(nick)), ("token", JStr(token)),
     ("security_level", JNum(Decimal(level)))]
  }

  /** `authenticate_user`: as many characters as were presented are compared. */
  predicate Accepts(users: map<string, Account>, nick: string, token: string) {
    Lower(nick) in users && token <= users[Lower(nick)].token
  }

  /** The two words of a login line. */
  function LoginWords(command: string): (string, string)
    requires "/login" <= command
  {
    var after := SkipSpaces(command[6..]);
    var nick := ScanWord(after, 31);
    (nick, ScanWord(SkipSpaces(after[|nick|..]), 63))
  }

  function LoginPairs(nick: string, session: nat): seq<Pair> {
    [("type", JStr("login")), ("status", JStr("success")), ("nick", JStr(nick)), ("session_id", JStr(Decimal(session)))]
  }

  /** The slot is authorised, answered, and everybody online is told. */
  function Grant(s: Server, i: nat, nick: string, token: string, level: nat): Server
    requires i < |s.slots| && s.slots[i].ssl.Some?
  {
    var slot := s.slots[i].(nick := nick, token := token, authorized := true, security_level := level);
    var s1 := s.(slots := s.slots[i := slot], granted := s.granted[slot.ssl.value := nick]);
    var s2 := WriteSlot(s1, i, Line(LoginPairs(nick, slot.session_id)));
    Broadcast(s2, "System", "User " + nick + " joined the secure network")
  }

  function Login(s: Server, i: nat, command: string, env: Env): Server
    requires i < |s.slots| && s.slots[i].ssl.Some? && "/login" <= command
  {
    var (nick, token) := LoginWords(command);
    if nick == "" || token == "" then s
    else if env.query && Accepts(s.users, nick, token) then
      Grant(s, i, nick, token, s.users[Lower(nick)].security_level)
    else WriteSlot(s, i, Line(ResultPairs("login", "Invalid credentials")))
  }

  const HELP_COMMANDS: seq<string> := [
    "/register <nick> - Register new account",
    "/login <nick> <token> - Login to account",
    "/msg <user> <text> - Send private message",
    "/online - List online users",
    "/help - This help message"]

  function HelpPairs(commands: seq<string>): seq<Pair> {
    [("type", JStr("help")), ("commands", JArr(commands))]
  }

  function OnlinePairs(slots: seq<Slot>): seq<Pair> {
    [("type", JStr("online")), ("users", JArr(OnlineNicks(slots)))]
  }

  /** Target and text of `/msg` and `/send_enc`. */
  function MessageWords(arguments: string): (string, string) {
    var after := SkipSpaces(arguments);
    var target := ScanWord(after, 31);
    (target, ScanLine(SkipSpaces(after[|target|..]), 2047))
  }

  function PrivateHeads(from: string, to: string): seq<Pair> {
    [("type", JStr("private")), ("from", JStr(from)), ("to", JStr(to))]
  }

  function SendPrivate(s: Server, from: string, to: string, text: string): Server {
    match FindOnline(s.slots, to)
    case None => s
    case Some(j) => WriteSlot(s, j, Printed(PrivateHeads(from, to) + [("text", JStr(text))]))
  }

  function SendEncrypted(s: Server, from: string, to: string, cipher: Option<string>): Server {
    match FindOnline(s.slots, to)
    case None => s
    case Some(j) =>
      if cipher.None? then s
      else
        WriteSlot(s, j, Printed(
          [("type", JStr("encrypted")), ("from", JStr(from)), ("to", JStr(to))] + [("data", JStr(cipher.value))]))
  }

  function Unauthorized(s: Server, i: nat, command: string, env: Env): Server
    requires i < |s.slots| && s.slots[i].ssl.Some?
  {
    if "/register" <= command then Register(s, i, command, env)
    else if "/login" <= command then Login(s, i, command, env)
    else if "/help" <= command then WriteSlot(s, i, Line(HelpPairs(HELP_COMMANDS)))
    else WriteSlot(s, i, Line(ErrorPairs("Authentication required")))
  }

  function Authorized(s: Server, i: nat, command: string, env: Env): Server
    requires i < |s.slots|
  {
    var nick := s.slots[i].nick;
    if command == "/online" then WriteSlot(s, i, Printed(OnlinePairs(s.slots)))
    else if "/msg" <= command then
      var (to, text) := MessageWords(command[4..]);
      if to == "" || text == "" then s else SendPrivate(s, nick, to, text)
    else if "/send_enc" <= command then
      var (to, text) := MessageWords(command[9..]);
      if to == "" || text == "" then s else SendEncrypted(s, nick, to, env.cipher)
    else if command != "" then Broadcast(s, nick, command)
    else s
  }

  function StripNewline(s: string): string {
    if s != "" && s[|s| - 1] == '\n' then s[..|s| - 1] else s
  }

  /** The text of a command: sanitised, without a newline at its end; nothing for a blank line. */
  function CommandOf(raw: string): string {
    var buffer := Sanitized(CStr(raw));
    if buffer == "" || buffer[0] == '\n' then "" else StripNewline(buffer)
  }

  /** One turn of the handler's loop on slot `i`, with what the read returned. */
  function Input(s: Server, i: nat, raw: string, env: Env): Server
    requires i < |s.slots|
  {
    var slot := s.slots[i];
    if slot.fd < 0 || slot.ssl.None? || raw == "" then s
    else
      var (limit, ok) := RateLimit.Admit(slot.limit, env.now);
      var s1 := s.(slots := s.slots[i := slot.(last_activity := env.now, limit := limit)]);
      if !ok then WriteSlot(s1, i, Line(ErrorPairs("Rate limit exceeded")))
      else
        var command := CommandOf(raw);
        if command == "" then s1
        else if slot.authorized then Authorized(s1, i, command, env)
        else Unauthorized(s1, i, command, env)
  }

  // ---------------------------------------------------------------------------------------------
  // Connections
  // ---------------------------------------------------------------------------------------------

  function FirstFree(slots: seq<Slot>): (r: Option<nat>)
    ensures r.Some? ==> r.value < |slots| && slots[r.value].fd < 0 && forall k :: 0 <= k < r.value ==> slots[k].fd >= 0
    ensures r.None? ==> forall k :: 0 <= k < |slots| ==> slots[k].fd >= 0
  {
    if slots == [] then None
    else if slots[0].fd < 0 then Some(0)
    else match FirstFree(slots[1..]) case None => None case Some(k) => Some(k + 1)
  }

  /**
   `handle_new_connection`: the kernel hands out a descriptor that is not open.  With no free slot, or after a
   failed handshake, it is closed again at once.
   */
  function Accept(s: Server, fd: int, handshake: bool, now: int): Server {
    match FirstFree(s.slots)
    case None => s
    case Some(i) =>
      if !handshake then s
      else
        var slot := Slot(fd, Some(s.next), "", "", false, now, RateLimit.Limiter(now, 0), 0, 1, {});
        s.(slots := s.slots[i := slot], open := s.open + {fd}, next := s.next + 1)
  }

  const WELCOME: seq<Pair> := [("type", JStr("welcome")), ("version", JStr("4.0")), ("security", JStr("enhanced"))]

  function Greeted(slot: Slot, session: nat): Slot {
    slot.(session_id := session, keys := slot.keys + HANDLER_KEYS)
  }

  /** The start of a handler: keys, session number and welcome line. */
  function Greet(s: Server, i: nat, session: nat): Server
    requires i < |s.slots|
  {
    if s.slots[i].fd < 0 then s
    else
      WriteSlot(s.(slots := s.slots[i := Greeted(s.slots[i], session)]), i, Line(WELCOME))
  }

  /** `cleanup_client_resources`. */
  function Cleanup(s: Server, i: nat): Server
    requires i < |s.slots|
  {
    var slot := s.slots[i];
    s.(slots := s.slots[i := slot.(fd := if slot.fd >= 0 then -1 else slot.fd, ssl := None, nick := "", token := "", authorized := false,
         keys := slot.keys - CLEANUP_KEYS)],
       open := if slot.fd >= 0 then s.open - {slot.fd} else s.open)
  }

  /** `disconnect_client` of the earlier server: a slot that is not in use is left alone. */
  function Disconnect(s: Server, i: nat): Server
    requires i < |s.slots|
  {
    var slot := s.slots[i];
    if slot.fd < 0 then s
    else
      s.(slots := s.slots[i := slot.(fd := -1, ssl := None, nick := "", token := "", authorized := false,
           keys := slot.keys - DISCONNECT_KEYS)],
         open := s.open - {slot.fd})
  }

  /** The end of a handler, also of a stale one whose slot was given to another connection. */
  function Exit(s: Server, i: nat): Server
    requires i < |s.slots|
  {
    var slot := s.slots[i];
    Cleanup(if slot.authorized then Broadcast(s, "System", "User " + slot.nick + " disconnected") else s, i)
  }

  predicate TimedOut(slot: Slot, now: int) {
    slot.fd >= 0 && now - slot.last_activity > CONNECTION_TIMEOUT
  }

  /** `check_client_timeouts` on the slots below `n`: the descriptor is closed, the rest of the slot stays. */
  function Sweep(s: Server, now: int, n: nat): (r: Server)
    requires n <= |s.slots|
    ensures |r.slots| == |s.slots| && forall k :: n <= k < |s.slots| ==> r.slots[k] == s.slots[k]
  {
    if n == 0 then s
    else
      var s1 := Sweep(s, now, n - 1);
      var slot := s1.slots[n - 1];
      if TimedOut(slot, now) then s1.(slots := s1.slots[n - 1 := slot.(fd := -1)], open := s1.open - {slot.fd}) else s1
  }
}
