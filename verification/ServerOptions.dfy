/** The server's option file: what `options_write_for_server` prints is what
    `options_read_for_server` reads back. */
module ServerOptions {
  import opened LinkedLists
  import opened Scanning
  import opened OptionFile

  /** Shorts are held unsigned; the two flags are 0 or 1. */
  datatype Options = Options(port: nat, host: string, timeout: nat, logdir: string, destdir: string,
                             max: nat, quiet: nat, debug: nat, keepAlive: nat)

  const PORT := Key("server", "listen", "port")
  const IP := Key("server", "listen", "ip")
  const TIMEOUT := Key("server", "connection", "timeout")
  const LOG := Key("server", "directory", "log")
  const DEST := Key("server", "directory", "dest")
  const MAX := Key("server", "downloads", "max")
  const QUIET := Key("server", "mode", "quiet")
  const DEBUG := Key("server", "mode", "debug")

  const CLIENT_PORT := Key("client", "server", "port")
  const CLIENT_IP := Key("client", "server", "ip")
  const CLIENT_TIMEOUT := Key("client", "connection", "timeout")
  const CLIENT_KEEPALIVE := Key("client", "connection", "keepalive")

  predicate IsShort(n: int) {
    0 <= n < 0x1_0000
  }

  /** A 16-bit pattern as %hi prints it. */
  function AsSigned(n: nat): (r: int)
    requires IsShort(n)
  {
    if n < 0x8000 then n else n - 0x1_0000
  }

  /** What storing an int in 16 bits keeps. */
  function Stored(n: int): (r: nat)
    ensures IsShort(r)
  {
    n % 0x1_0000
  }

  lemma SignedStored(n: nat)
    requires IsShort(n)
    ensures Stored(AsSigned(n)) == n && Stored(n) == n
  {
  }

  function ServerFile(o: Options): (settings: seq<Setting>)
    requires IsShort(o.timeout) && IsShort(o.max) && IsShort(o.quiet) && IsShort(o.debug)
    ensures |settings| == 8
  {
    [Setting(PORT, PrintInt(o.port)), Setting(IP, o.host), Setting(TIMEOUT, PrintInt(AsSigned(o.timeout))),
     Setting(LOG, o.logdir), Setting(DEST, o.destdir), Setting(MAX, PrintInt(AsSigned(o.max))),
     Setting(QUIET, PrintInt(AsSigned(o.quiet))), Setting(DEBUG, PrintInt(AsSigned(o.debug)))]
  }

  // ----- reading one value -----

  /** The length of the front of a line that `%[^=]` takes. */
  function BeforeEquals(line: string): (n: nat)
    ensures n <= |line| && (n < |line| ==> line[n] == '=')
  {
    if line == [] || line[0] == '=' then 0 else 1 + BeforeEquals(line[1..])
  }

  /** Where the value begins; a line without a key or without '=' gives no value. */
  function ValueCursor(line: string): Cursor {
    var n := BeforeEquals(line);
    if n == 0 || n == |line| then Cursor("", true, false) else Cursor(line[n + 1..], false, true)
  }

  function ReadString(text: string, key: Key, unset: string): string {
    ScanWord(ValueCursor(FindLine(text, Name(key))), 256, unset).0
  }

  function ReadShort(text: string, key: Key, unset: nat): nat {
    var (n, c) := ScanInt(ValueCursor(FindLine(text, Name(key))), 0);
    if c.ok then Stored(n) else unset
  }

  function ReadForServer(text: string, o: Options): Options {
    Options(ReadShort(text, PORT, o.port), ReadString(text, IP, o.host), ReadShort(text, TIMEOUT, o.timeout),
            ReadString(text, LOG, o.logdir), ReadString(text, DEST, o.destdir), ReadShort(text, MAX, o.max),
            ReadShort(text, QUIET, o.quiet), ReadShort(text, DEBUG, o.debug), o.keepAlive)
  }

  function ReadForClient(text: string, o: Options): Options {
    o.(port := ReadShort(text, CLIENT_PORT, o.port), host := ReadString(text, CLIENT_IP, o.host),
       timeout := ReadShort(text, CLIENT_TIMEOUT, o.timeout),
         keepAlive := ReadShort(text, CLIENT_KEEPALIVE, o.keepAlive))
  }

  const DEFAULT_TIMEOUT := 10

  /** `options_new` on an existing server file: the timeout read is overwritten, and
      the client's keys are looked up as well. */
  function LoadServer(text: string, o: Options): Options {
    ReadForClient(text, ReadForServer(text, o).(timeout := DEFAULT_TIMEOUT))
  }

  // ----- the keys do not get in each other's way -----

  lemma PartsPlain()
    ensures Plain("server") && Plain("listen") && Plain("connection") && Plain("directory") && Plain("downloads")
            && Plain("mode")
  {
  }

  lemma LastPartsPlain()
    ensures Plain("port") && Plain("ip") && Plain("timeout") && Plain("log") && Plain("dest") && Plain("max")
            && Plain("quiet") && Plain("debug")
  {
  }

  lemma ServerKeysProper()
    ensures Proper(PORT) && Proper(IP) && Proper(TIMEOUT) && Proper(LOG) && Proper(DEST) && Proper(MAX)
            && Proper(QUIET) && Proper(DEBUG)
  {
    PartsPlain();
    LastPartsPlain();
  }

  lemma ClientPartsPlain()
    ensures Plain("client") && Plain("keepalive")
  {
  }

  lemma ClientKeysProper()
    ensures Proper(CLIENT_PORT) && Proper(CLIENT_IP) && Proper(CLIENT_TIMEOUT) && Proper(CLIENT_KEEPALIVE)
  {
    PartsPlain();
    LastPartsPlain();
    ClientPartsPlain();
  }

  /** Two keys differ visibly when their middle parts differ or the second's last
      part does not begin the first's. */
  lemma Apart(a: Key, b: Key)
    requires Proper(a) && Proper(b)
    requires a.middle != b.middle || |b.last| > |a.last| || b.last != a.last[..|b.last|]
    ensures !Contains(Name(a), Name(b))
  {
    if Contains(Name(a), Name(b)) {
      ContainedKey(a, b);
    }
  }

  lemma DistinctMiddles()
    ensures "listen"[0] != "connection"[0] && "listen"[0] != "directory"[0] && "listen"[0] != "mode"[0]
    ensures PORT.middle != TIMEOUT.middle && PORT.middle != LOG.middle && PORT.middle != MAX.middle
            && PORT.middle != QUIET.middle
    ensures TIMEOUT.middle != LOG.middle && TIMEOUT.middle != MAX.middle && TIMEOUT.middle != QUIET.middle
    ensures LOG.middle != MAX.middle && LOG.middle != QUIET.middle && MAX.middle != QUIET.middle
  {
    assert "directory"[1] != "downloads"[1];
  }

  lemma DistinctLasts()
    ensures IP.last != PORT.last[..2] && |DEST.last| > |LOG.last| && DEBUG.last != QUIET.last[..5]
  {
    assert IP.last[0] != PORT.last[0];
    assert DEBUG.last[0] != QUIET.last[0];
  }

  lemma ServerKeysApart(o: Options)
    requires IsShort(o.timeout) && IsShort(o.max) && IsShort(o.quiet) && IsShort(o.debug)
    ensures Unmixed(ServerFile(o))
  {
    var settings := ServerFile(o);
    ServerKeysProper();
    DistinctMiddles();
    DistinctLasts();
    forall i, j | 0 <= i < j < 8
      ensures !Contains(Name(settings[i].key), Name(settings[j].key))
    {
      Apart(settings[i].key, settings[j].key);
    }
  }

  lemma ClientKeyApart(a: Key, b: Key)
    requires Proper(a) && Proper(b) && a.first == "server" && b.first == "client"
    ensures !Contains(Name(a), Name(b))
  {
    if Contains(Name(a), Name(b)) {
      ContainedKey(a, b);
    }
  }

  // ----- a key and its own line -----

  lemma {:induction false} EqualsBehind(name: string, rest: string)
    requires '=' !in name
    ensures BeforeEquals(name + "=" + rest) == |name|
  {
    var line := name + "=" + rest;
    if name != [] {
      assert line[0] == name[0] && name[0] in name;
      assert line[1..] == name[1..] + "=" + rest;
      EqualsBehind(name[1..], rest);
    }
  }

  lemma ValueBehind(x: Setting)
    requires Proper(x.key)
    ensures ValueCursor(Line(x)) == Cursor(x.value + "\n", false, true)
  {
    NamePlain(x.key);
    var rest := x.value + "\n";
    assert Line(x) == Name(x.key) + "=" + rest;
    EqualsBehind(Name(x.key), rest);
    assert Line(x)[|Name(x.key)| + 1..] == rest;
  }

  lemma SameLineSameName(x: Setting, y: Setting)
    requires Proper(x.key) && Proper(y.key) && Line(x) == Line(y)
    ensures Name(x.key) == Name(y.key)
  {
    NamePlain(x.key);
    NamePlain(y.key);
    EqualsBehind(Name(x.key), x.value + "\n");
    EqualsBehind(Name(y.key), y.value + "\n");
    assert Line(x) == Name(x.key) + "=" + (x.value + "\n");
    assert Line(y) == Name(y.key) + "=" + (y.value + "\n");
    assert Name(x.key) == Line(x)[..|Name(x.key)|] && Name(y.key) == Line(y)[..|Name(y.key)|];
  }

  /** Setting `j` is read from the line that was printed for it. */
  predicate OwnLine(settings: seq<Setting>, j: nat)
    requires j < |settings|
  {
    FindLine(PrintFile(settings), Name(settings[j].key)) == Line(settings[j])
  }

  lemma OwnLineExact(settings: seq<Setting>, j: nat)
    requires j < |settings| && (forall i | 0 <= i < |settings| :: Fits(settings[i])) && Unmixed(settings)
    ensures OwnLine(settings, j) <==> forall i | 0 <= i < j :: !Contains(settings[i].value, Name(settings[j].key))
  {
    var key := settings[j].key;
    assert Fits(settings[j]);
    FoundExact(settings, j);
    FindInFile(settings, key);
    var p := FirstMatch(settings, x => Mentions(x, key));
    if p < j && Line(settings[p]) == Line(settings[j]) {
      assert Fits(settings[p]);
      SameLineSameName(settings[p], settings[j]);
      SelfContained(Name(key));
      assert false;
    }
  }

  // ----- values are read back -----

  lemma StringReadBack(text: string, key: Key, value: string, unset: string)
    requires Proper(key) && FindLine(text, Name(key)) == Line(Setting(key, value))
    requires NoSpace(value) && 0 < |value| <= 256
    ensures ReadString(text, key, unset) == value
  {
    ValueBehind(Setting(key, value));
    WordReadBack(Cursor(value + "\n", false, true), value, "\n", 256, unset);
  }

  lemma ShortReadBack(text: string, key: Key, n: int, unset: nat)
    requires Proper(key) && FindLine(text, Name(key)) == Line(Setting(key, PrintInt(n)))
    ensures ReadShort(text, key, unset) == n % 0x1_0000
  {
    ValueBehind(Setting(key, PrintInt(n)));
    IntReadBack(Cursor(PrintInt(n) + "\n", false, true), n, "\n", 0);
  }

  // ----- the whole file -----

  /** Fields that can be written: shorts, and words whose lines `fgets` takes whole. */
  predicate Legal(o: Options) {
    && IsShort(o.port) && IsShort(o.timeout) && IsShort(o.max) && IsShort(o.quiet) && IsShort(o.debug)
    && NoSpace(o.host) && NoSpace(o.logdir) && NoSpace(o.destdir)
    && o.host != [] && o.logdir != [] && o.destdir != []
    && (forall i | 0 <= i < 8 :: Fits(ServerFile(o)[i]))
  }

  lemma NoDotInNumber(n: int)
    ensures '.' !in PrintInt(n)
  {
  }

  /** A printed number contains no key. */
  lemma NoKeyInNumber(n: int, key: Key)
    requires Proper(key)
    ensures !Contains(PrintInt(n), Name(key))
  {
    assert Name(key)[|key.first|] == '.';
    NoDotInNumber(n);
    if Contains(PrintInt(n), Name(key)) {
      ContainedChars(PrintInt(n), Name(key), '.');
    }
  }

  /** The settings whose values are words: the host and the two directories. */
  predicate IsWord(i: int) {
    i == 1 || i == 3 || i == 4
  }

  /** Neither the host nor a directory contains a key that is printed after it. */
  predicate Unconfusing(o: Options)
    requires Legal(o)
  {
    forall i, j | 0 <= i < j < 8 && IsWord(i) :: !Contains(ServerFile(o)[i].value, Name(ServerFile(o)[j].key))
  }

  lemma NumberSetting(o: Options, i: nat, key: Key)
    requires Legal(o) && i < 8 && !IsWord(i) && Proper(key)
    ensures !Contains(ServerFile(o)[i].value, Name(key))
  {
    var stored := if i == 2 then o.timeout else if i == 5 then o.max else if i == 6 then o.quiet else o.debug;
    NoKeyInNumber(if i == 0 then o.port else AsSigned(stored), key);
  }

  lemma ServerFits(o: Options)
    requires Legal(o)
    ensures forall i | 0 <= i < |ServerFile(o)| :: Fits(ServerFile(o)[i])
  {
  }

  lemma OwnLineFound(o: Options, j: nat)
    requires Legal(o) && j < 8
    ensures OwnLine(ServerFile(o), j)
            <==> forall i: nat | i < j && IsWord(i) :: !Contains(ServerFile(o)[i].value, Name(ServerFile(o)[j].key))
  {
    var settings := ServerFile(o);
    ServerKeysApart(o);
    ServerFits(o);
    forall i: nat | i < j && !IsWord(i)
      ensures !Contains(settings[i].value, Name(settings[j].key))
    {
      assert Fits(settings[j]);
      NumberSetting(o, i, settings[j].key);
    }
    OwnLineExact(settings, j);
  }

  /** Every key is read from its own line exactly when neither the host nor a
      directory contains a key that is printed after it. */
  lemma OwnLinesExact(o: Options)
    requires Legal(o)
    ensures (forall j: nat | j < 8 :: OwnLine(ServerFile(o), j)) <==> Unconfusing(o)
  {
    forall j: nat | j < 8
      ensures OwnLine(ServerFile(o), j)
              <==> forall i: nat | i < j && IsWord(i) :: !Contains(ServerFile(o)[i].value, Name(ServerFile(o)[j].key))
    {
      OwnLineFound(o, j);
    }
  }

  lemma WordsFit(o: Options)
    requires Legal(o)
    ensures |o.host| <= 256 && |o.logdir| <= 256 && |o.destdir| <= 256
  {
    var settings := ServerFile(o);
    assert Fits(settings[1]) && Fits(settings[3]) && Fits(settings[4]);
  }

  /** Reading a file that was written recovers every field, whatever the fields
      held before. */
  lemma ServerRoundTrip(o: Options, unset: Options)
    requires Legal(o) && Unconfusing(o)
    ensures ReadForServer(PrintFile(ServerFile(o)), unset) == o.(keepAlive := unset.keepAlive)
  {
    var settings := ServerFile(o);
    var text := PrintFile(settings);
    OwnLinesExact(o);
    ServerKeysProper();
    assert OwnLine(settings, 0) && OwnLine(settings, 1) && OwnLine(settings, 2) && OwnLine(settings, 3);
    assert OwnLine(settings, 4) && OwnLine(settings, 5) && OwnLine(settings, 6) && OwnLine(settings, 7);
    WordsFit(o);
    assert settings[0].key == PORT && settings[1].key == IP && settings[2].key == TIMEOUT && settings[3].key == LOG;
    assert settings[4].key == DEST && settings[5].key == MAX && settings[6].key == QUIET && settings[7].key == DEBUG;
    ShortReadBack(text, PORT, o.port, unset.port);
    StringReadBack(text, IP, o.host, unset.host);
    ShortReadBack(text, TIMEOUT, AsSigned(o.timeout), unset.timeout);
    StringReadBack(text, LOG, o.logdir, unset.logdir);
    StringReadBack(text, DEST, o.destdir, unset.destdir);
    ShortReadBack(text, MAX, AsSigned(o.max), unset.max);
    ShortReadBack(text, QUIET, AsSigned(o.quiet), unset.quiet);
    ShortReadBack(text, DEBUG, AsSigned(o.debug), unset.debug);
    SignedStored(o.port);
    SignedStored(o.timeout);
    SignedStored(o.max);
    SignedStored(o.quiet);
    SignedStored(o.debug);
  }

  // ----- a field that is lost -----

  /** A line whose value does not begin like a number leaves a short as it was. */
  lemma WordIsNoNumber(text: string, key: Key, x: Setting, unset: nat)
    requires FindLine(text, Name(key)) == Line(x) && Proper(x.key)
    requires x.value != [] && !IsSpace(x.value[0]) && x.value[0] != '-' && x.value[0] != '+'
             && DigitValue(x.value[0]) >= 10
    ensures ReadShort(text, key, unset) == unset
  {
    ValueBehind(x);
    var s := x.value + "\n";
    assert s[0] == x.value[0];
    assert AfterSign(SkipSpace(s)) == (false, s) && ChooseBase(s) == (10, s) && Scanning.Run(s, 10) == 0;
  }

  lemma FoundAt(settings: seq<Setting>, key: Key, p: nat)
    requires p < |settings| && Proper(key) && forall i | 0 <= i < |settings| :: Fits(settings[i])
    requires Mentions(settings[p], key) && forall i | 0 <= i < p :: !Mentions(settings[i], key)
    ensures FindLine(PrintFile(settings), Name(key)) == Line(settings[p])
  {
    FirstMatchUnique(settings, x => Mentions(x, key), p);
    FindInFile(settings, key);
  }

  /** A host that contains a later key: whatever the other fields, the limit on
      downloads that was written is not read. */
  lemma HostHidesLimit(o: Options, unset: Options)
    requires Legal(o) && o.host == Name(MAX)
    ensures !Unconfusing(o) && ReadForServer(PrintFile(ServerFile(o)), unset).max == unset.max
  {
    var settings := ServerFile(o);
    ServerKeysProper();
    ServerKeysApart(o);
    ServerFits(o);
    SelfContained(o.host);
    assert settings[5].key == MAX && settings[1].value == o.host && IsWord(1);
    NumberSetting(o, 0, MAX);
    FoundAt(settings, MAX, 1);
    assert o.host[0] == MAX.first[0] == 's';
    WordIsNoNumber(PrintFile(settings), MAX, settings[1], unset.max);
  }

  // ----- the client's pass over a server file -----

  predicate ClientFree(o: Options, key: Key)
    requires Legal(o)
  {
    forall i | 0 <= i < 8 && IsWord(i) :: !Contains(ServerFile(o)[i].value, Name(key))
  }

  /** A client key is missing from a server file exactly when neither the host nor a
      directory contains it. */
  lemma ClientKeyMissing(o: Options, key: Key)
    requires Legal(o) && Proper(key) && key.first == "client"
    ensures FindLine(PrintFile(ServerFile(o)), Name(key)) == "" <==> ClientFree(o, key)
  {
    var settings := ServerFile(o);
    ServerKeysProper();
    ServerFits(o);
    FindInFile(settings, key);
    forall i: nat | i < 8
      ensures Mentions(settings[i], key) <==> IsWord(i) && Contains(settings[i].value, Name(key))
    {
      if !IsWord(i) {
        NumberSetting(o, i, key);
      }
      ClientKeyApart(settings[i].key, key);
    }
  }

  lemma MissingKeyReads(text: string, key: Key, word: string, n: nat)
    requires FindLine(text, Name(key)) == ""
    ensures ReadString(text, key, word) == word && ReadShort(text, key, n) == n
  {
  }

  /** The client's keys are not in a server file, so that pass changes nothing, and
      loading a written file gives the options again, the timeout reset. */
  lemma LoadServerRoundTrip(o: Options, unset: Options)
    requires Legal(o) && Unconfusing(o)
    requires ClientFree(o, CLIENT_PORT) && ClientFree(o, CLIENT_IP) && ClientFree(o, CLIENT_TIMEOUT)
             && ClientFree(o, CLIENT_KEEPALIVE)
    ensures LoadServer(PrintFile(ServerFile(o)), unset) == o.(timeout := 10, keepAlive := unset.keepAlive)
  {
    var text := PrintFile(ServerFile(o));
    ServerRoundTrip(o, unset);
    var read := o.(timeout := DEFAULT_TIMEOUT, keepAlive := unset.keepAlive);
    ClientKeysProper();
    ClientKeyMissing(o, CLIENT_PORT);
    ClientKeyMissing(o, CLIENT_IP);
    ClientKeyMissing(o, CLIENT_TIMEOUT);
    ClientKeyMissing(o, CLIENT_KEEPALIVE);
    MissingKeyReads(text, CLIENT_PORT, "", read.port);
    MissingKeyReads(text, CLIENT_IP, read.host, 0);
    MissingKeyReads(text, CLIENT_TIMEOUT, "", read.timeout);
    MissingKeyReads(text, CLIENT_KEEPALIVE, "", read.keepAlive);
  }
}
