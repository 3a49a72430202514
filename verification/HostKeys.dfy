/**
 The host-key store and the trust-on-first-use decision.

 The store caches what it read from its file. Reading and writing the file can fail; a
 failed write leaves the file as it was. A key is its base64 text.
 */
module HostKeys {
  import opened Wrappers
  import opened Lines
  import opened KnownHosts
  import Decimal

  type Port = p: nat | p < 0x1_0000 witness 22

  // ----- Keys of the map -----

  function MakeKey(host: string, port: Port): HostId {
    if port == 22 then host else "[" + host + "]:" + Decimal.Print(port)
  }

  /** What comes after the last colon is the port. */
  lemma LastColon(a: string, d: string)
    requires forall c :: c in d ==> Decimal.IsDigit(c)
    ensures (a + ":" + d)[|a|] == ':'
    ensures forall k :: |a| < k < |a + ":" + d| ==> (a + ":" + d)[k] != ':'
  {
    var s := a + ":" + d;
    forall k | |a| < k < |s| ensures s[k] != ':' {
      assert s[k] == d[k - |a| - 1] && s[k] in d;
    }
  }

  lemma SameTail(a: string, d: string, b: string, e: string)
    requires a + ":" + d == b + ":" + e
    requires (forall c :: c in d ==> Decimal.IsDigit(c)) && (forall c :: c in e ==> Decimal.IsDigit(c))
    ensures a == b && d == e
  {
    LastColon(a, d);
    LastColon(b, e);
    var s := a + ":" + d;
    assert a == s[..|a|] && b == s[..|b|];
    assert d == s[|a| + 1..] && e == s[|b| + 1..];
  }

  /** A host that is stored as itself does not look like a bracketed one. */
  predicate Plain(host: string, port: Port) {
    port == 22 ==> host == "" || host[0] != '['
  }

  /** Two endpoints share a key exactly when one is a port-22 host spelled like the other's key. */
  lemma SharedKeyIff(host: string, port: Port, host': string, port': Port)
    ensures MakeKey(host, port) == MakeKey(host', port') <==>
              || (host == host' && port == port')
              || (port == 22 && port' != 22 && host == MakeKey(host', port'))
              || (port' == 22 && port != 22 && host' == MakeKey(host, port))
  {
    if port != 22 && port' != 22 && MakeKey(host, port) == MakeKey(host', port') {
      var a, b := "[" + host + "]", "[" + host' + "]";
      assert a + ":" + Decimal.Print(port) == MakeKey(host, port);
      assert b + ":" + Decimal.Print(port') == MakeKey(host', port');
      SameTail(a, Decimal.Print(port), b, Decimal.Print(port'));
      Decimal.ReadPrint(port);
      Decimal.ReadPrint(port');
      assert host == a[1..|a| - 1] && host' == b[1..|b| - 1];
    }
  }

  /** Different endpoints have different keys, unless a port-22 host starts with a bracket. */
  lemma MakeKeyIsInjective(host: string, port: Port, host': string, port': Port)
    requires Plain(host, port) && Plain(host', port')
    requires MakeKey(host, port) == MakeKey(host', port')
    ensures host == host' && port == port'
  {
    SharedKeyIff(host, port, host', port');
  }

  /** On port 22 a host that is written in brackets can be taken for another. */
  lemma BracketsCollide()
    ensures MakeKey("[h]:2222", 22) == MakeKey("h", 2222)
  {
    assert Decimal.Print(2222) == Decimal.Print(222) + [Decimal.Digit(2)];
    assert Decimal.Print(222) == Decimal.Print(22) + [Decimal.Digit(2)];
    assert Decimal.Print(22) == Decimal.Print(2) + [Decimal.Digit(2)];
    assert Decimal.Print(2222) == "2222";
  }

  // ----- The file -----

  datatype ReadError = NotFound | Unreadable

  class KnownHostsFile {
    var content: Option<string>

    constructor (content: Option<string>)
      ensures this.content == content
    {
      this.content := content;
    }

    method ReadToString(fails: bool) returns (r: Result<string, ReadError>)
      ensures r == if fails then Err(Unreadable) else if content.Some? then Ok(content.value) else Err(NotFound)
    {
      r := if fails then Err(Unreadable) else if content.Some? then Ok(content.value) else Err(NotFound);
    }

    method Write(text: string, fails: bool) returns (ok: bool)
      modifies this
      ensures ok == !fails
      ensures content == if fails then old(content) else Some(text)
    {
      if !fails {
        content := Some(text);
      }
      ok := !fails;
    }
  }

  /** What a file is read as; a missing one is an empty store. */
  function OnDisk(content: Option<string>): Entries {
    if content.Some? then Parse(content.value) else map[]
  }

  lemma {:induction false} EnumerationExists(m: Entries) returns (ks: seq<HostId>)
    ensures Enumerates(ks, m)
    decreases |m|
  {
    if m == map[] {
      ks := [];
    } else {
      var k :| k in m;
      var rest := m - {k};
      assert rest.Keys == m.Keys - {k};
      var js := EnumerationExists(rest);
      ks := [k] + js;
      assert forall x :: x in ks <==> x == k || x in js;
    }
  }

  /** The text written for a map. */
  ghost function Written(m: Entries): string {
    assert exists ks :: Enumerates(ks, m) by { var ks := EnumerationExists(m); }
    var ks :| Enumerates(ks, m);
    Text(ks, m)
  }

  lemma WrittenIs(ks: seq<HostId>, m: Entries)
    requires Enumerates(ks, m)
    ensures Written(m) == Text(ks, m)
  {
    var js :| Enumerates(js, m) && Written(m) == Text(js, m);
    TextIsCanonical(ks, js, m);
  }

  /** A map comes back from its file exactly when it is well-formed. */
  lemma WrittenRoundTrip(m: Entries)
    ensures OnDisk(Some(Written(m))) == m <==> WellFormed(m)
  {
    var ks := EnumerationExists(m);
    WrittenIs(ks, m);
    RoundTripIff(ks, m);
  }

  // ----- The store -----

  datatype Store = Store(cache: Option<Entries>, file: Option<string>)

  datatype Faults = Faults(read: bool, write: bool)

  datatype StoreError = ReadFailed | WriteFailed

  datatype Verdict = Known | Unknown | Mismatch(expected: Blob, got: Blob)

  /** The cache, read from the file if there is none yet. */
  function Loaded(st: Store, faults: Faults): Result<Entries, StoreError> {
    if st.cache.Some? then Ok(st.cache.value)
    else if faults.read then Err(ReadFailed)
    else Ok(OnDisk(st.file))
  }

  function Judge(m: Entries, id: HostId, key: Blob): Verdict {
    if id !in m then Unknown else if m[id] == key then Known else Mismatch(m[id], key)
  }

  function AfterVerify(st: Store, host: string, port: Port, key: Blob, faults: Faults): (r: (Store, Result<Verdict, StoreError>)) {
    match Loaded(st, faults)
    case Err(e) => (st, Err(e))
    case Ok(m) => (st.(cache := Some(m)), Ok(Judge(m, MakeKey(host, port), key)))
  }

  /** Writing comes first: the cache changes only when the file did. */
  ghost function AfterTrust(st: Store, host: string, port: Port, key: Blob, faults: Faults): (r: (Store, Result<(), StoreError>)) {
    match Loaded(st, faults)
    case Err(e) => (st, Err(e))
    case Ok(m) =>
      var m' := m[MakeKey(host, port) := key];
      if faults.write then (st.(cache := Some(m)), Err(WriteFailed))
      else (Store(Some(m'), Some(Written(m'))), Ok(()))
  }

  ghost function AfterForget(st: Store, host: string, port: Port, faults: Faults): (r: (Store, Result<bool, StoreError>)) {
    match Loaded(st, faults)
    case Err(e) => (st, Err(e))
    case Ok(m) =>
      var id := MakeKey(host, port);
      if id !in m then (st.(cache := Some(m)), Ok(false))
      else if faults.write then (st.(cache := Some(m)), Err(WriteFailed))
      else (Store(Some(m - {id}), Some(Written(m - {id}))), Ok(true))
  }

  class HostKeyStore {
    const file: KnownHostsFile
    var state: Option<Entries>

    constructor (file: KnownHostsFile)
      ensures this.file == file && state == None
    {
      this.file := file;
      state := None;
    }

    function State(): Store
      reads this, file
    {
      Store(state, file.content)
    }

    /** `load_from_disk`. */
    method LoadFromDisk(faults: Faults) returns (r: Result<Entries, StoreError>)
      ensures r == if faults.read then Err(ReadFailed) else Ok(OnDisk(file.content))
    {
      var content := file.ReadToString(faults.read);
      if content == Err(NotFound) {
        return Ok(map[]);
      }
      if content.Err? {
        return Err(ReadFailed);
      }
      var m := Load(content.value);
      return Ok(m);
    }

    method KeysOf(entries: Entries) returns (keys: seq<HostId>)
      ensures Enumerates(keys, entries)
    {
      keys := [];
      var rest := entries.Keys;
      while rest != {}
        invariant rest <= entries.Keys
        invariant forall k :: k in keys <==> k in entries.Keys - rest
        invariant forall i, j :: 0 <= i < j < |keys| ==> keys[i] != keys[j]
        decreases |rest|
      {
        var k :| k in rest;
        assert k !in keys;
        keys := keys + [k];
        rest := rest - {k};
      }
    }

    method WriteToDisk(entries: Entries, faults: Faults) returns (ok: bool)
      modifies file
      ensures ok == !faults.write
      ensures file.content == if faults.write then old(file.content) else Some(Written(entries))
    {
      var keys := KeysOf(entries);
      WrittenIs(keys, entries);
      var content := Render(keys, entries);
      ok := file.Write(content, faults.write);
    }

    method Verify(host: string, port: Port, key: Blob, faults: Faults) returns (r: Result<Verdict, StoreError>)
      modifies this
      ensures (State(), r) == AfterVerify(old(State()), host, port, key, faults)
    {
      var id := MakeKey(host, port);
      if state.None? {
        var loaded := LoadFromDisk(faults);
        if loaded.Err? {
          return Err(loaded.error);
        }
        state := Some(loaded.value);
      }
      if id !in state.value {
        return Ok(Unknown);
      }
      if state.value[id] == key {
        return Ok(Known);
      }
      return Ok(Mismatch(state.value[id], key));
    }

    method Trust(host: string, port: Port, key: Blob, faults: Faults) returns (r: Result<(), StoreError>)
      modifies this, file
      ensures (State(), r) == AfterTrust(old(State()), host, port, key, faults)
    {
      var id := MakeKey(host, port);
      if state.None? {
        var loaded := LoadFromDisk(faults);
        if loaded.Err? {
          return Err(loaded.error);
        }
        state := Some(loaded.value);
      }
      var snapshot := state.value[id := key];
      var ok := WriteToDisk(snapshot, faults);
      if !ok {
        return Err(WriteFailed);
      }
      state := Some(snapshot);
      return Ok(());
    }

    method Forget(host: string, port: Port, faults: Faults) returns (r: Result<bool, StoreError>)
      modifies this, file
      ensures (State(), r) == AfterForget(old(State()), host, port, faults)
    {
      var id := MakeKey(host, port);
      if state.None? {
        var loaded := LoadFromDisk(faults);
        if loaded.Err? {
          return Err(loaded.error);
        }
        state := Some(loaded.value);
      }
      if id !in state.value {
        return Ok(false);
      }
      var snapshot := state.value - {id};
      var ok := WriteToDisk(snapshot, faults);
      if !ok {
        return Err(WriteFailed);
      }
      state := Some(snapshot);
      return Ok(true);
    }
  }
}
