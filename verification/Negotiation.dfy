/** The version handshake: the client's negotiation loop and the server's answer (client/client.go,
    server/conn.go). */
module Negotiation {
  import opened Bytes
  import opened Fids

  /** "9P2000", "9P2000.u" and "unknown". */
  const PLAIN: bytes := [0x39, 0x50, 0x32, 0x30, 0x30, 0x30]
  const UNIX: bytes := PLAIN + [0x2E, 0x75]
  const UNKNOWN: bytes := [0x75, 0x6E, 0x6B, 0x6E, 0x6F, 0x77, 0x6E]

  const DEFAULT_MSIZE: uint32 := 8192

  function Min(a: uint32, b: uint32): uint32
  {
    if a < b then a else b
  }

  /** This repository's server, configured with a message size. */
  function Answer(maxMsize: uint32, msize: uint32, version: bytes): (uint32, bytes)
  {
    (Min(msize, maxMsize), if version == UNIX || version == PLAIN then version else UNKNOWN)
  }

  /** What a side holds after the handshake. */
  datatype Terms = Terms(msize: uint32, unix: bool)

  /** What a server so configured holds after being asked for a version. */
  function Held(maxMsize: uint32, msize: uint32, version: bytes): Terms
  {
    Terms(Min(msize, maxMsize), version == UNIX)
  }

  /** The server's side of one connection. */
  class ServerConn {
    const maxMsize: uint32
    const table: Conn
    var terms: Terms

    /** A configured size of zero means the default. */
    constructor (configured: uint32)
      ensures maxMsize == (if configured == 0 then DEFAULT_MSIZE else configured) && terms == Terms(maxMsize, false)
      ensures fresh(table) && table.Valid() && table.Table() == map[]
    {
      var most := if configured == 0 then DEFAULT_MSIZE else configured;
      maxMsize, terms := most, Terms(most, false);
      table := new Conn();
    }

    /** Tversion: every fid is forgotten, and the reply names the terms now in force, or no version
        at all when the one asked for is not known. */
    method Version(msize: uint32, version: bytes) returns (size: uint32, name: bytes)
      modifies this, table
      ensures table.Valid() && table.Table() == map[]
      ensures terms == Held(maxMsize, msize, version)
      ensures (size, name) == Answer(maxMsize, msize, version)
    {
      table.Reset();
      terms := Terms(Min(msize, maxMsize), version == UNIX);
      size := terms.msize;
      name := if version == UNIX then UNIX else if version != PLAIN then UNKNOWN else PLAIN;
    }
  }

  /** A server's answers, as a function of what it is asked. */
  type Answers = (uint32, bytes) -> (uint32, bytes)

  /** What the client settles on with such a server, asking for `version` first; None is a refusal. */
  function Settled(server: Answers, msize: uint32, version: bytes): Option<Terms>
  {
    var (size, name) := server(msize, version);
    if name == version then Some(Terms(Min(msize, size), version == UNIX))
    else if name == PLAIN then Some(Terms(Min(msize, size), false))
    else if name == UNKNOWN && version != PLAIN then
      var (size2, name2) := server(msize, PLAIN);
      if name2 == PLAIN then Some(Terms(Min(msize, size2), false)) else None
    else None
  }

  /** The versions the client asks for, one Tversion each. */
  function Questions(server: Answers, msize: uint32, version: bytes): (r: seq<bytes>)
    ensures 1 <= |r| <= 2
  {
    if version != UNKNOWN && version != PLAIN && server(msize, version).1 == UNKNOWN then [version, PLAIN] else [version]
  }

  /** The loop: one retry with the plain version, and no more. */
  method Negotiate(server: Answers, msize: uint32, wanted: bytes) returns (r: Option<Terms>, asked: seq<bytes>)
    ensures r == Settled(server, msize, wanted) && asked == Questions(server, msize, wanted)
  {
    var version, retried := wanted, false;
    asked := [];
    while true
      invariant asked == if retried then [wanted] else []
      invariant if retried then
                  && version == PLAIN && wanted != PLAIN && wanted != UNKNOWN
                  && server(msize, wanted).1 == UNKNOWN
                else version == wanted
      decreases 1 - |asked|
    {
      var (size, name) := server(msize, version);
      asked := asked + [version];
      if name == version {
        return Some(Terms(Min(msize, size), version == UNIX)), asked;
      } else if name == PLAIN {
        return Some(Terms(Min(msize, size), false)), asked;
      } else if name == UNKNOWN && version != PLAIN && !retried {
        retried, version := true, PLAIN;
      } else {
        return None, asked;
      }
    }
  }

  /** With any server: the extension is in use only if the client asked for it and the server agreed
      to it, and the message size is within both sides' limits. */
  lemma SettledWithinBoth(server: Answers, msize: uint32, version: bytes)
    requires Settled(server, msize, version).Some?
    ensures var t := Settled(server, msize, version).value;
            && t.msize <= msize
            && (t.unix <==> version == UNIX && server(msize, version).1 == UNIX)
            && (exists v: bytes :: v in {version, PLAIN} && t.msize <= server(msize, v).0)
  {
    var (size, name) := server(msize, version);
    if name != version && name != PLAIN {
      assert PLAIN in {version, PLAIN};
    } else {
      assert version in {version, PLAIN};
    }
  }

  /** With this repository's server it always settles, on the very terms the server holds after the
      last question. */
  lemma BothEndsAgree(maxMsize: uint32, msize: uint32, version: bytes)
    ensures var server: Answers := (m, v) => Answer(maxMsize, m, v);
            var asked := Questions(server, msize, version);
            Settled(server, msize, version) == Some(Held(maxMsize, msize, asked[|asked| - 1]))
  {
    assert UNKNOWN[0] != PLAIN[0] && UNKNOWN[0] != UNIX[0] && |UNIX| != |PLAIN|;
  }

  /** The two ends of one connection: whatever the client asks for, it settles, and the terms it
      settles on are those the server's connection is left holding, with no fid bound. */
  method Handshake(conn: ServerConn, msize: uint32, wanted: bytes) returns (r: Option<Terms>)
    modifies conn, conn.table
    ensures r == Some(conn.terms) && conn.table.Valid() && conn.table.Table() == map[]
    ensures conn.terms.msize == Min(msize, conn.maxMsize) && conn.terms.unix == (wanted == UNIX)
  {
    var server: Answers := (m, v) => Answer(conn.maxMsize, m, v);
    var asked;
    r, asked := Negotiate(server, msize, wanted);
    BothEndsAgree(conn.maxMsize, msize, wanted);
    var i := 0;
    while i < |asked|
      invariant 0 <= i <= |asked|
      invariant i > 0 ==> conn.terms == Held(conn.maxMsize, msize, asked[i - 1])
      invariant i > 0 ==> conn.table.Valid() && conn.table.Table() == map[]
    {
      var size, name := conn.Version(msize, asked[i]);
      assert (size, name) == server(msize, asked[i]);
      i := i + 1;
    }
    UnixIsAskedOnce(server, conn.maxMsize, msize, wanted);
  }

  lemma UnixIsAskedOnce(server: Answers, maxMsize: uint32, msize: uint32, wanted: bytes)
    requires server(msize, wanted) == Answer(maxMsize, msize, wanted)
    ensures var asked := Questions(server, msize, wanted); asked[|asked| - 1] == UNIX <==> wanted == UNIX
  {
    assert |UNIX| != |PLAIN|;
  }
}
