/** The server's side of a login: the password check (server/authen.c), the global
    path that every login extends, and UserAuthen (server/sendMessage.c). */
module Authen {
  import opened CTypes
  import opened SocketIO
  import opened Frames

  const AUTH_RESULT_OK: int := 0
  const AUTH_RESULT_FAIL: int := -1
  const AUTH_RESULT_USER_QUERY_FAIL: int := 1
  const AUTH_RESULT_IO_ERROR: int := -2

  const OK_MESSAGE: Text := "AUTH_RESULT_OK"
  const FAIL_MESSAGE: Text := "AUTH_FAIL"

  /** authenticateUser, over the system's table of password hashes. */
  function AuthenticateUser(shadow: map<Text, Text>, c: Credentials): int {
    if c.user !in shadow then AUTH_RESULT_USER_QUERY_FAIL
    else if c.hash != shadow[c.user] then AUTH_RESULT_FAIL
    else AUTH_RESULT_OK
  }

  // ---------- clientPath ----------

  const MAX_PATH_LEN: nat := 1024

  const INITIAL_PATH: Text := "/home/dingjr/DevCode/NexFile/tmp/netDisk"

  predicate HasRoom(path: Bytes, user: Bytes) { |path| + 1 + |user| < MAX_PATH_LEN }

  /** Path and name with exactly one slash put between them if the path lacks it. */
  function Join(path: Bytes, user: Bytes): Bytes {
    (if path == [] || path[|path| - 1] != '/' then path + "/" else path) + user
  }

  function Login(path: Bytes, user: Bytes): Bytes {
    if HasRoom(path, user) then Join(path, user) else path
  }

  /** The path after logins by these users, first login first. */
  function Logins(path: Bytes, users: seq<Bytes>): Bytes {
    if users == [] then path else Login(Logins(path, users[..|users| - 1]), users[|users| - 1])
  }

  /** The names one after the other, a slash before each. */
  function Slashed(users: seq<Bytes>): Bytes {
    if users == [] then [] else Slashed(users[..|users| - 1]) + "/" + users[|users| - 1]
  }

  predicate EndsInName(s: Bytes) { s != [] && s[|s| - 1] != '/' }

  /** The users among these whose hash is the stored one. */
  function AcceptedUsers(shadow: map<Text, Text>, cs: seq<Credentials>): seq<Bytes> {
    if cs == [] then []
    else
      var last := cs[|cs| - 1];
      AcceptedUsers(shadow, cs[..|cs| - 1])
      + (if AuthenticateUser(shadow, last) == AUTH_RESULT_OK then [last.user] else [])
  }

  /** What one judged pair does to the path. */
  function PathAfter(shadow: map<Text, Text>, path: Bytes, c: Credentials): Bytes {
    if AuthenticateUser(shadow, c) == AUTH_RESULT_OK then Login(path, c.user) else path
  }

  lemma NobodyAccepted(shadow: map<Text, Text>, path: Bytes)
    ensures Logins(path, AcceptedUsers(shadow, [])) == path
  {
  }

  lemma PathAfterOneMore(shadow: map<Text, Text>, path: Bytes, cs: seq<Credentials>, c: Credentials)
    ensures Logins(path, AcceptedUsers(shadow, cs + [c]))
         == PathAfter(shadow, Logins(path, AcceptedUsers(shadow, cs)), c)
  {
    assert (cs + [c])[..|cs|] == cs;
    var users := AcceptedUsers(shadow, cs);
    if AuthenticateUser(shadow, c) == AUTH_RESULT_OK {
      assert (users + [c.user])[..|users|] == users;
    } else {
      assert users + [] == users;
    }
  }

  /** The buffer never fills, and a login only ever appends. */
  lemma {:induction false} LoginsBounded(path: Bytes, users: seq<Bytes>)
    requires |path| < 1024
    ensures path <= Logins(path, users) && |Logins(path, users)| < 1024
  {
    if users != [] {
      LoginsBounded(path, users[..|users| - 1]);
    }
  }

  /** While names fit, the path is the starting path followed by every name. */
  lemma {:induction false} LoginsAppendNames(path: Bytes, users: seq<Bytes>)
    requires EndsInName(path) && forall u | u in users :: EndsInName(u)
    requires |path| + |Slashed(users)| < 1024
    ensures Logins(path, users) == path + Slashed(users) && EndsInName(Logins(path, users))
  {
    if users != [] {
      var init, last := users[..|users| - 1], users[|users| - 1];
      assert |Slashed(users)| == |Slashed(init)| + 1 + |last|;
      LoginsAppendNames(path, init);
      assert path + Slashed(users) == (path + Slashed(init)) + "/" + last;
      assert last in users;
    }
  }

  // ---------- UserAuthen ----------

  /** Whether the next `send` fails. */
  predicate SendLost(script: seq<IoEvent>) { script != [] && !script[0].Chunk? }

  /** The reply to a pair; none to a right one whose name does not fit the path. */
  function ReplyTo(shadow: map<Text, Text>, path: Bytes, c: Credentials): Bytes {
    if AuthenticateUser(shadow, c) != AUTH_RESULT_OK then Frame(FAIL_MESSAGE)
    else if HasRoom(path, c.user) then Frame(OK_MESSAGE)
    else []
  }

  /** What UserAuthen returns for a pair. */
  function ResultOf(shadow: map<Text, Text>, path: Bytes, c: Credentials, lost: bool): int {
    if ReplyTo(shadow, path, c) == [] || lost then AUTH_RESULT_IO_ERROR else AuthenticateUser(shadow, c)
  }

  /** Verdict, reply and path by the password table alone: a user of the table with the
      stored hash is let in if the name fits the path, which then ends in it after exactly
      one slash; anybody else is turned down, and told so. */
  lemma VerdictByTable(shadow: map<Text, Text>, path: Bytes, c: Credentials, lost: bool)
    ensures var right := c.user in shadow && c.hash == shadow[c.user];
            var room := |path| + 1 + |c.user| < 1024;
            && ResultOf(shadow, path, c, lost)
               == (if lost || (right && !room) then -2 else if right then 0 else if c.user in shadow then -1 else 1)
            && ReplyTo(shadow, path, c)
               == (if !right then Frame("AUTH_FAIL") else if room then Frame("AUTH_RESULT_OK") else [])
            && PathAfter(shadow, path, c)
               == (if !right || !room then path
                   else if path != [] && path[|path| - 1] == '/' then path + c.user
                   else path + "/" + c.user)
  {
  }

  /** strncat: the string at `dst`, then at most `n` bytes of `src`, then a terminator. */
  method StrNCat(dst: array<Byte>, src: Text, n: nat)
    requires StrLen(dst[..]) + Min(|src|, n) < dst.Length
    modifies dst
    ensures CStr(dst[..]) == CStr(old(dst[..])) + src[..Min(|src|, n)]
    ensures StrLen(dst[..]) < dst.Length
  {
    ghost var before := CStr(dst[..]);
    var len := StrLen(dst[..]);
    var copied := Min(|src|, n);
    CopyIn(dst, len, src[..copied]);
    dst[len + copied] := '\0';
    assert dst[..len + copied] == before + src[..copied];
    CStrIs(dst[..], len + copied);
  }

  class Server {
    const clientPath: array<Byte>
    const shadow: map<Text, Text>

    ghost predicate Valid()
      reads this, clientPath
    {
      clientPath.Length == MAX_PATH_LEN && StrLen(clientPath[..]) < MAX_PATH_LEN
    }

    ghost function Path(): Text
      reads this, clientPath
    {
      CStr(clientPath[..])
    }

    /** The global's initial value (clientHandle.c line 20). */
    constructor (shadow: map<Text, Text>)
      ensures Valid() && fresh(clientPath) && this.shadow == shadow
      ensures Path() == "/home/dingjr/DevCode/NexFile/tmp/netDisk"
    {
      this.shadow := shadow;
      var buf := new Byte[MAX_PATH_LEN](_ => '\0');
      clientPath := buf;
      new;
      CopyIn(clientPath, 0, INITIAL_PATH);
      assert clientPath[|INITIAL_PATH|] == '\0' by {
        assert clientPath[|INITIAL_PATH|] == clientPath[|INITIAL_PATH|..][0];
      }
      assert clientPath[..][..|INITIAL_PATH|] == INITIAL_PATH;
      CStrIs(clientPath[..], |INITIAL_PATH|);
    }

    /** Lines 83-95: the slash, if one is missing, and the name. */
    method ExtendPath(username: Text)
      requires Valid() && HasRoom(Path(), username)
      modifies clientPath
      ensures Valid() && Path() == Join(old(Path()), username)
    {
      var pathLen := StrLen(clientPath[..]);
      if pathLen == 0 || clientPath[pathLen - 1] != '/' {
        ghost var before := Path();
        clientPath[pathLen] := '/';
        pathLen := pathLen + 1;
        clientPath[pathLen] := '\0';
        assert clientPath[..][..pathLen] == before + "/";
        CStrIs(clientPath[..], pathLen);
      }
      StrNCat(clientPath, username, MAX_PATH_LEN - pathLen - 1);
      assert username[..|username|] == username;
    }

    /** One reply frame by a single `send`; a partial send counts as success. */
    method Reply(sock: Socket, message: Text) returns (ok: bool, ghost sent: nat)
      requires |message| <= DATA_SIZE
      modifies sock`outgoing, sock`sendScript
      ensures sent <= |Frame(message)| && sock.outgoing == old(sock.outgoing) + Frame(message)[..sent]
      ensures ok <==> sent > 0
      ensures ok <==> !SendLost(old(sock.sendScript))
      ensures sock.sendScript == if old(sock.sendScript) == [] then [] else old(sock.sendScript)[1..]
      ensures old(sock.sendScript) == [] ==> sent == |Frame(message)|
    {
      var train := Frame(message);
      var sret, errno := sock.Send(train);
      ok := sret > 0;
      sent := if ok then sret else 0;
    }

    /** The second half of UserAuthen, from the check of the pair on. */
    method Judge(sock: Socket, username: Text, cryptPassword: Text) returns (r: int, ghost sent: nat)
      requires Valid()
      modifies sock`outgoing, sock`sendScript, clientPath
      ensures Valid()
      ensures var c := Credentials(username, cryptPassword);
              var reply := ReplyTo(shadow, old(Path()), c);
              && Path() == PathAfter(shadow, old(Path()), c)
              && r == ResultOf(shadow, old(Path()), c, SendLost(old(sock.sendScript)))
              && sent <= |reply| && sock.outgoing == old(sock.outgoing) + reply[..sent]
              && (old(sock.sendScript) == [] ==> sent == |reply|)
              && sock.sendScript == if reply == [] || old(sock.sendScript) == [] then old(sock.sendScript)
                                    else old(sock.sendScript)[1..]
    {
      sent := 0;
      var auth_ret := AuthenticateUser(shadow, Credentials(username, cryptPassword));
      var ok: bool;
      if auth_ret == AUTH_RESULT_OK {
        if PathLength() + 1 + |username| >= MAX_PATH_LEN {
          return AUTH_RESULT_IO_ERROR, 0;
        }
        ExtendPath(username);
        ok, sent := Reply(sock, OK_MESSAGE);
      } else {
        ok, sent := Reply(sock, FAIL_MESSAGE);
      }
      return if ok then auth_ret else AUTH_RESULT_IO_ERROR, sent;
    }

    /** UserAuthen.  `c` is the pair that was read, by calls that may fail; the path moves
        exactly when its hash is the stored one and the name fits, even if the reply is then
        lost.  A length that does not fit its buffer is where the model stops (`undefined`). */
    method UserAuthen(sock: Socket) returns (r: int, undefined: bool, ghost c: Credentials, ghost sent: nat)
      requires Valid()
      modifies sock, clientPath
      ensures Valid()
      ensures undefined ==>
                Path() == old(Path()) && sock.outgoing == old(sock.outgoing) && sock.sendScript == old(sock.sendScript)
      ensures !undefined ==>
                var reply := ReplyTo(shadow, old(Path()), c);
                && Fits(c) && Path() == PathAfter(shadow, old(Path()), c)
                && r == ResultOf(shadow, old(Path()), c, SendLost(old(sock.sendScript)))
                && sent <= |reply| && sock.outgoing == old(sock.outgoing) + reply[..sent]
                && (old(sock.sendScript) == [] ==> sent == |reply|)
                && sock.sendScript == if reply == [] || old(sock.sendScript) == [] then old(sock.sendScript)
                                      else old(sock.sendScript)[1..]
      // the same by the password table alone
      ensures !undefined ==>
                var right := c.user in shadow && c.hash == shadow[c.user];
                var room := old(|Path()|) + 1 + |c.user| < 1024;
                var lost := old(sock.sendScript) != [] && !old(sock.sendScript)[0].Chunk?;
                && r == (if lost || (right && !room) then -2 else if right then 0
                         else if c.user in shadow then -1 else 1)
                && (old(sock.sendScript) == [] ==>
                     sock.outgoing == if right && !room then old(sock.outgoing)
                                      else old(sock.outgoing) + Frame(if right then "AUTH_RESULT_OK" else "AUTH_FAIL"))
                && Path() == if !right || !room then old(Path())
                             else if old(Path()) != [] && old(Path())[|old(Path())| - 1] == '/' then old(Path()) + c.user
                             else old(Path()) + "/" + c.user
      // calls that do not fail read the next pair of the stream
      ensures Failed !in old(sock.recvScript) ==>
                && Failed !in sock.recvScript
                && (undefined <==> !Readable(old(sock.incoming)))
                && (undefined <==> !(0 <= FieldLength(old(sock.incoming)) <= 63
                                     && 0 <= FieldLength(AfterField(old(sock.incoming))) <= 127))
                && (!undefined ==>
                     c == Decode(old(sock.incoming)) && sock.incoming == AfterCredentials(old(sock.incoming)))
    {
      hide FieldLength, FieldText, AfterField, CStr, ReplyTo, PathAfter, ResultOf, AuthenticateUser, Frame;
      sent, r := 0, AUTH_RESULT_IO_ERROR;
      ghost var path := Path();
      var username, cryptPassword;
      username, undefined := ReceiveField(sock, USER_SIZE);
      c := NOBODY;
      if undefined {
        return;
      }
      cryptPassword, undefined := ReceiveField(sock, HASH_SIZE);
      if undefined {
        return;
      }
      c := Credentials(username, cryptPassword);
      VerdictByTable(shadow, path, c, SendLost(sock.sendScript));
      r, sent := Judge(sock, username, cryptPassword);
      assert sent == |ReplyTo(shadow, path, c)| ==> ReplyTo(shadow, path, c)[..sent] == ReplyTo(shadow, path, c);
    }

    function PathLength(): (n: nat)
      requires Valid()
      reads this, clientPath
      ensures n == |Path()|
    {
      StrLen(clientPath[..])
    }

    /** Logins on any connections, one after the other: the global path is the fold of the
        accepted names over what it was, whether or not each name fitted and whatever
        became of the replies.  Connections that fail or send lengths beyond the buffers
        included; only the latter stop the server. */
    method ServeLogins(socks: seq<Socket>) returns (undefined: bool, ghost cs: seq<Credentials>)
      requires Valid()
      requires forall i, j :: 0 <= i < j < |socks| ==> socks[i] != socks[j]
      modifies socks, clientPath
      ensures Valid() && |cs| <= |socks| && (undefined <==> |cs| < |socks|)
      ensures forall i :: 0 <= i < |socks| && Failed !in old(socks[i].recvScript) ==>
                && (i < |cs| ==> Readable(old(socks[i].incoming)) && cs[i] == Decode(old(socks[i].incoming)))
                && (i == |cs| ==> !Readable(old(socks[i].incoming)))
      ensures Path() == Logins(old(Path()), AcceptedUsers(shadow, cs))
    {
      hide Logins, AcceptedUsers, PathAfter, AuthenticateUser, Decode, Readable, Path, ReplyTo, ResultOf, Fits;
      cs, undefined := [], false;
      NobodyAccepted(shadow, Path());
      for k := 0 to |socks|
        invariant Valid() && !undefined && |cs| == k
        invariant forall i :: 0 <= i < k && Failed !in old(socks[i].recvScript) ==>
                    Readable(old(socks[i].incoming)) && cs[i] == Decode(old(socks[i].incoming))
        invariant forall i :: k <= i < |socks| ==>
                    socks[i].incoming == old(socks[i].incoming) && socks[i].recvScript == old(socks[i].recvScript)
        invariant Path() == Logins(old(Path()), AcceptedUsers(shadow, cs))
      {
        var r, stop, c, sent := UserAuthen(socks[k]);
        if stop {
          return true, cs;
        }
        PathAfterOneMore(shadow, old(Path()), cs, c);
        cs := cs + [c];
      }
    }
  }
}
