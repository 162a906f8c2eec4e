/** The text of the option files, line by line, and which options can be written. */
module OptionText {
  import opened Scanning
  import opened OptionFile
  import opened ServerOptions
  import opened ClientOptions

  /** Each line with its newline. */
  function Text(lines: seq<string>): string {
    if lines == [] then "" else lines[0] + "\n" + Text(lines[1..])
  }

  /** A 16-bit field as %hi prints it. */
  function Short(n: nat): string {
    PrintInt(if n < 32768 then n else n - 65536)
  }

  lemma ListenNames()
    ensures Name(PORT) == "server.listen.port" && Name(IP) == "server.listen.ip"
  {
  }

  lemma TimeoutName()
    ensures Name(TIMEOUT) == "server.connection.timeout"
  {
  }

  lemma DirectoryNames()
    ensures Name(LOG) == "server.directory.log" && Name(DEST) == "server.directory.dest"
  {
  }

  lemma ModeNames()
    ensures Name(MAX) == "server.downloads.max"
    ensures Name(QUIET) == "server.mode.quiet" && Name(DEBUG) == "server.mode.debug"
  {
  }

  lemma ClientListenNames()
    ensures Name(CLIENT_PORT) == "client.server.port" && Name(CLIENT_IP) == "client.server.ip"
  {
  }

  lemma ClientConnectionNames()
    ensures Name(CLIENT_TIMEOUT) == "client.connection.timeout"
    ensures Name(CLIENT_KEEPALIVE) == "client.connection.keepalive"
  {
  }

  lemma {:induction false} PrintedLines(settings: seq<Setting>, lines: seq<string>)
    requires |lines| == |settings|
    requires forall i | 0 <= i < |lines| :: lines[i] == Name(settings[i].key) + "=" + settings[i].value
    ensures PrintFile(settings) == Text(lines)
    decreases |lines|
  {
    if lines != [] {
      PrintedLines(settings[1..], lines[1..]);
    }
  }

  /** What the server's options are written as, line by line. */
  lemma ServerText(o: Options)
    requires IsShort(o.timeout) && IsShort(o.max) && IsShort(o.quiet) && IsShort(o.debug)
    ensures PrintFile(ServerFile(o)) == Text([
              "server.listen.port" + "=" + PrintInt(o.port), "server.listen.ip" + "=" + o.host,
              "server.connection.timeout" + "=" + Short(o.timeout), "server.directory.log" + "=" + o.logdir,
              "server.directory.dest" + "=" + o.destdir, "server.downloads.max" + "=" + Short(o.max),
              "server.mode.quiet" + "=" + Short(o.quiet), "server.mode.debug" + "=" + Short(o.debug)])
  {
    ListenNames();
    TimeoutName();
    DirectoryNames();
    ModeNames();
    PrintedLines(ServerFile(o), [
      "server.listen.port" + "=" + PrintInt(o.port), "server.listen.ip" + "=" + o.host,
      "server.connection.timeout" + "=" + Short(o.timeout), "server.directory.log" + "=" + o.logdir,
      "server.directory.dest" + "=" + o.destdir, "server.downloads.max" + "=" + Short(o.max),
      "server.mode.quiet" + "=" + Short(o.quiet), "server.mode.debug" + "=" + Short(o.debug)]);
  }

  lemma ClientText(o: Options)
    requires IsShort(o.timeout) && IsShort(o.keepAlive)
    ensures PrintFile(ClientFile(o)) == Text([
              "client.server.port" + "=" + PrintInt(o.port), "client.server.ip" + "=" + o.host,
              "client.connection.timeout" + "=" + Short(o.timeout),
              "client.connection.keepalive" + "=" + Short(o.keepAlive)])
  {
    ClientListenNames();
    ClientConnectionNames();
    PrintedLines(ClientFile(o), [
      "client.server.port" + "=" + PrintInt(o.port), "client.server.ip" + "=" + o.host,
      "client.connection.timeout" + "=" + Short(o.timeout),
      "client.connection.keepalive" + "=" + Short(o.keepAlive)]);
  }

  // ----- which options can be written -----

  lemma ShortLength(n: int)
    requires -0x8000 <= n < 0x1_0000
    ensures |PrintInt(n)| <= 6 && '\n' !in PrintInt(n)
  {
    assert Power10(5) == 100_000 by {
      assert Power10(0) == 1 && Power10(1) == 10 && Power10(2) == 100 && Power10(3) == 1000 && Power10(4) == 10_000;
    }
    DecimalLength(Abs(n), 5);
  }

  lemma NumberFits(key: Key, n: int)
    requires Proper(key) && |Name(key)| <= 27 && -0x8000 <= n < 0x1_0000
    ensures Fits(Setting(key, PrintInt(n)))
  {
    ShortLength(n);
  }

  lemma WordFits(key: Key, word: string)
    requires Proper(key) && NoSpace(word)
    ensures Fits(Setting(key, word)) <==> |Name(key)| + |word| <= 252
  {
  }

  /** The server's options can be written and read back line by line exactly when the host
      and the directories are words that leave room for their keys in a line. */
  lemma LegalExact(o: Options)
    requires IsShort(o.port) && IsShort(o.timeout) && IsShort(o.max) && IsShort(o.quiet) && IsShort(o.debug)
    ensures Legal(o)
            <==> (NoSpace(o.host) && NoSpace(o.logdir) && NoSpace(o.destdir)
                  && 0 < |o.host| <= 236 && 0 < |o.logdir| <= 232 && 0 < |o.destdir| <= 231)
  {
    ServerKeysProper();
    NumberFits(PORT, o.port);
    NumberFits(TIMEOUT, AsSigned(o.timeout));
    NumberFits(MAX, AsSigned(o.max));
    NumberFits(QUIET, AsSigned(o.quiet));
    NumberFits(DEBUG, AsSigned(o.debug));
    var file := ServerFile(o);
    assert file[1] == Setting(IP, o.host) && file[3] == Setting(LOG, o.logdir) && file[4] == Setting(DEST, o.destdir);
    if NoSpace(o.host) && NoSpace(o.logdir) && NoSpace(o.destdir) {
      WordFits(IP, o.host);
      WordFits(LOG, o.logdir);
      WordFits(DEST, o.destdir);
    }
  }

  /** The same for the client's options. */
  lemma LegalClientExact(o: Options)
    requires IsShort(o.port) && IsShort(o.timeout) && IsShort(o.keepAlive)
    ensures LegalClient(o) <==> NoSpace(o.host) && 0 < |o.host| <= 236
  {
    ClientKeysProper();
    NumberFits(CLIENT_PORT, o.port);
    NumberFits(CLIENT_TIMEOUT, AsSigned(o.timeout));
    NumberFits(CLIENT_KEEPALIVE, AsSigned(o.keepAlive));
    assert ClientFile(o)[1] == Setting(CLIENT_IP, o.host);
    if NoSpace(o.host) {
      WordFits(CLIENT_IP, o.host);
    }
  }

  // ----- what is not written -----

  /** An empty file leaves every field as it was. */
  lemma NothingRead(o: Options)
    ensures ReadForServer("", o) == o && ReadForClient("", o) == o
  {
  }

  /** `fgets` takes a whole line, newline included, when there is room for it, and otherwise
      as much as there is room for. */
  lemma {:induction false} LineTaken(text: string, room: nat)
    ensures var n := TakeLine(text, room);
            && n <= room && (forall i | 0 <= i < n - 1 :: text[i] != '\n')
            && (n == room || n == |text| || (n > 0 && text[n - 1] == '\n'))
    decreases room
  {
    if text != [] && room > 0 && text[0] != '\n' {
      LineTaken(text[1..], room - 1);
    }
  }
}
