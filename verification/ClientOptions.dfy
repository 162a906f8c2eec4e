/** The client's option file: what `options_write_for_client` prints is what
    `options_read_for_client` reads back. */
module ClientOptions {
  import opened Scanning
  import opened OptionFile
  import opened ServerOptions

  function ClientFile(o: Options): (settings: seq<Setting>)
    requires IsShort(o.timeout) && IsShort(o.keepAlive)
    ensures |settings| == 4
  {
    [Setting(CLIENT_PORT, PrintInt(o.port)), Setting(CLIENT_IP, o.host),
     Setting(CLIENT_TIMEOUT, PrintInt(AsSigned(o.timeout))), Setting(CLIENT_KEEPALIVE, PrintInt(AsSigned(o.keepAlive)))]
  }

  predicate LegalClient(o: Options) {
    && IsShort(o.port) && IsShort(o.timeout) && IsShort(o.keepAlive)
    && NoSpace(o.host) && o.host != []
    && (forall i | 0 <= i < 4 :: Fits(ClientFile(o)[i]))
  }

  lemma ClientKeysApart(o: Options)
    requires IsShort(o.timeout) && IsShort(o.keepAlive)
    ensures Unmixed(ClientFile(o))
  {
    var settings := ClientFile(o);
    ClientKeysProper();
    assert "server"[0] != "connection"[0];
    assert CLIENT_PORT.middle != CLIENT_TIMEOUT.middle;
    assert CLIENT_IP.last[0] != CLIENT_PORT.last[0];
    assert |CLIENT_KEEPALIVE.last| > |CLIENT_TIMEOUT.last|;
    forall i, j | 0 <= i < j < 4
      ensures !Contains(Name(settings[i].key), Name(settings[j].key))
    {
      Apart(settings[i].key, settings[j].key);
    }
  }

  /** Only the host can be mistaken for a setting, since numbers contain no key. */
  predicate HostUnconfusing(o: Options) {
    !Contains(o.host, Name(CLIENT_TIMEOUT)) && !Contains(o.host, Name(CLIENT_KEEPALIVE))
  }

  lemma OwnClientLine(o: Options, j: nat)
    requires LegalClient(o) && j < 4
    ensures OwnLine(ClientFile(o), j) <==> (j <= 1 || !Contains(o.host, Name(ClientFile(o)[j].key)))
  {
    var settings := ClientFile(o);
    ClientKeysApart(o);
    assert Fits(settings[j]);
    forall i: nat | i < j && i != 1
      ensures !Contains(settings[i].value, Name(settings[j].key))
    {
      NoKeyInNumber(if i == 0 then o.port else AsSigned(o.timeout), settings[j].key);
    }
    OwnLineExact(settings, j);
    assert settings[1].value == o.host;
  }

  /** Every key is read from its own line exactly when the host contains none of the
      keys printed after it. */
  lemma OwnClientLinesExact(o: Options)
    requires LegalClient(o)
    ensures (forall j: nat | j < 4 :: OwnLine(ClientFile(o), j)) <==> HostUnconfusing(o)
  {
    forall j: nat | j < 4
      ensures OwnLine(ClientFile(o), j) <==> (j <= 1 || !Contains(o.host, Name(ClientFile(o)[j].key)))
    {
      OwnClientLine(o, j);
    }
    assert ClientFile(o)[2].key == CLIENT_TIMEOUT && ClientFile(o)[3].key == CLIENT_KEEPALIVE;
  }

  /** Reading a file that was written recovers every field, whatever the fields
      held before, unless the host contains one of the keys behind it. */
  lemma ClientRoundTrip(o: Options, unset: Options)
    requires LegalClient(o) && HostUnconfusing(o)
    ensures ReadForClient(PrintFile(ClientFile(o)), unset)
            == unset.(port := o.port, host := o.host, timeout := o.timeout, keepAlive := o.keepAlive)
  {
    var settings := ClientFile(o);
    var text := PrintFile(settings);
    ClientKeysProper();
    OwnClientLinesExact(o);
    assert OwnLine(settings, 0) && OwnLine(settings, 1) && OwnLine(settings, 2) && OwnLine(settings, 3);
    assert settings[0].key == CLIENT_PORT && settings[1].key == CLIENT_IP;
    assert settings[2].key == CLIENT_TIMEOUT && settings[3].key == CLIENT_KEEPALIVE;
    assert Fits(settings[1]);
    ShortReadBack(text, CLIENT_PORT, o.port, unset.port);
    StringReadBack(text, CLIENT_IP, o.host, unset.host);
    ShortReadBack(text, CLIENT_TIMEOUT, AsSigned(o.timeout), unset.timeout);
    ShortReadBack(text, CLIENT_KEEPALIVE, AsSigned(o.keepAlive), unset.keepAlive);
    SignedStored(o.port);
    SignedStored(o.timeout);
    SignedStored(o.keepAlive);
  }

  /** A host that contains a later key: whatever the other fields, the timeout that
      was written is not read. */
  lemma HostHidesTimeout(o: Options, unset: Options)
    requires LegalClient(o) && o.host == Name(CLIENT_TIMEOUT)
    ensures !HostUnconfusing(o) && ReadForClient(PrintFile(ClientFile(o)), unset).timeout == unset.timeout
  {
    var settings := ClientFile(o);
    ClientKeysProper();
    ClientKeysApart(o);
    SelfContained(o.host);
    assert settings[2].key == CLIENT_TIMEOUT && settings[1].value == o.host;
    NoKeyInNumber(o.port, CLIENT_TIMEOUT);
    FoundAt(settings, CLIENT_TIMEOUT, 1);
    assert o.host[0] == CLIENT_TIMEOUT.first[0] == 'c';
    WordIsNoNumber(PrintFile(settings), CLIENT_TIMEOUT, settings[1], unset.timeout);
  }
}
