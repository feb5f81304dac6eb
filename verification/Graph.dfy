/**
 The parts of the hotel's graph store the daemon's handlers write to: config values, secrets, the
 vault registry. Config values are kept as text, together with what the JSON readers make of it.
 */
module Graph {
  import opened Wrappers

  // ---------------------------------------------------------------------------------------------
  // Text
  // ---------------------------------------------------------------------------------------------

  /** The code points Rust's `trim` removes. */
  predicate IsSpace(c: char) {
    var n := c as int;
    || 9 <= n <= 13 || n == 32 || n == 0x85 || n == 0xA0 || n == 0x1680
    || 0x2000 <= n <= 0x200A || n == 0x2028 || n == 0x2029 || n == 0x202F || n == 0x205F || n == 0x3000
  }

  function TrimStart(s: string): string {
    if s != [] && IsSpace(s[0]) then TrimStart(s[1..]) else s
  }

  function TrimEnd(s: string): string {
    if s != [] && IsSpace(s[|s| - 1]) then TrimEnd(s[..|s| - 1]) else s
  }

  function Trim(s: string): string {
    TrimEnd(TrimStart(s))
  }

  lemma {:induction false} TrimEndKeepsStart(s: string)
    requires s != [] ==> !IsSpace(s[0])
    ensures var t := TrimEnd(s);
      t <= s && (t != [] ==> !IsSpace(t[0]) && !IsSpace(t[|t| - 1]))
  {
    if s != [] && IsSpace(s[|s| - 1]) {
      TrimEndKeepsStart(s[..|s| - 1]);
    }
  }

  lemma {:induction false} TrimStartStops(s: string)
    ensures TrimStart(s) != [] ==> !IsSpace(TrimStart(s)[0])
  {
    if s != [] && IsSpace(s[0]) {
      TrimStartStops(s[1..]);
    }
  }

  /** Trimmed text has no space at either end, so trimming it again changes nothing. */
  lemma TrimIsIdempotent(s: string)
    ensures var t := Trim(s); Trim(t) == t && (t != [] ==> !IsSpace(t[0]) && !IsSpace(t[|t| - 1]))
  {
    TrimStartStops(s);
    TrimEndKeepsStart(TrimStart(s));
  }

  predicate AllSpace(s: string) {
    forall c :: c in s ==> IsSpace(c)
  }

  lemma {:induction false} TrimEndSplits(s: string) returns (post: string)
    ensures s == TrimEnd(s) + post && AllSpace(post)
  {
    if s != [] && IsSpace(s[|s| - 1]) {
      var p := TrimEndSplits(s[..|s| - 1]);
      post := p + [s[|s| - 1]];
      assert s == s[..|s| - 1] + [s[|s| - 1]];
    } else {
      post := [];
    }
  }

  lemma {:induction false} TrimStartSplits(s: string) returns (pre: string)
    ensures s == pre + TrimStart(s) && AllSpace(pre)
  {
    if s != [] && IsSpace(s[0]) {
      var p := TrimStartSplits(s[1..]);
      pre := [s[0]] + p;
      assert s == [s[0]] + s[1..];
    } else {
      pre := [];
    }
  }

  /** Trimming takes away space at the two ends and nothing else. */
  lemma TrimSplits(s: string) returns (pre: string, post: string)
    ensures s == pre + Trim(s) + post && AllSpace(pre) && AllSpace(post)
  {
    pre := TrimStartSplits(s);
    post := TrimEndSplits(TrimStart(s));
  }

  // ---------------------------------------------------------------------------------------------
  // Config values
  // ---------------------------------------------------------------------------------------------

  /** The fields the invite handler looks up in a JSON document; absent on other JSON values. */
  datatype Doc = Doc(hotelName: Option<string>, createdAt: Option<nat>, expiresAt: Option<nat>, status: Option<string>)

  /** Stored text, its value as a JSON string, and its fields as a JSON document, when it has them. */
  datatype Value = Value(raw: string, asString: Option<string>, asDoc: Option<Doc>)

  type Config = map<string, Value>

  function JsonString(s: string): Value {
    Value("\"" + s + "\"", Some(s), Some(Doc(None, None, None, None)))
  }

  function JsonDoc(doc: Doc): Value {
    Value("{}", None, Some(doc))
  }

  /** A JSON string or else the raw text, trimmed; blank values read as absent. */
  function ReadString(config: Config, key: string): Option<string> {
    if key !in config then None
    else
      var text := Trim(if config[key].asString.Some? then config[key].asString.value else config[key].raw);
      if text == [] then None else Some(text)
  }

  /** The text a stored value stands for: the JSON string if it is one, else the stored text itself. */
  predicate StandsFor(value: Value, text: string) {
    (value.asString.Some? ==> text == value.asString.value) && (value.asString.None? ==> text == value.raw)
  }

  /**
   Reading finds nothing exactly when the key is absent or its text all space; otherwise the text
   without the space around it.
   */
  lemma ReadStringIff(config: Config, key: string, text: string)
    requires key in config ==> StandsFor(config[key], text)
    ensures ReadString(config, key) == None <==> key !in config || AllSpace(text)
    ensures ReadString(config, key).Some? ==>
              var t := ReadString(config, key).value;
              && t != [] && !IsSpace(t[0]) && !IsSpace(t[|t| - 1])
              && exists pre, post :: text == pre + t + post && AllSpace(pre) && AllSpace(post)
  {
    TrimIsIdempotent(text);
    var pre, post := TrimSplits(text);
    var t := Trim(text);
    if t != [] {
      assert t[0] == text[|pre|];
    } else {
      assert text == pre + post;
    }
  }

  lemma ReadBack(config: Config, key: string, s: string)
    requires Trim(s) == s && s != []
    ensures ReadString(config[key := JsonString(s)], key) == Some(s)
  {
  }

  // ---------------------------------------------------------------------------------------------
  // Secrets and the vault registry
  // ---------------------------------------------------------------------------------------------

  datatype SecretRecord = SecretRecord(
    secretRef: string,
    kind: string,
    scope: string,
    allowedRoles: seq<string>,
    allowedGuests: seq<string>,
    ciphertext: string,
    nonce: string,
    createdAt: nat,
    updatedAt: nat)

  type Secrets = map<string, SecretRecord>

  datatype Entry = Entry(vaultName: string, secretRef: string)

  predicate Registered(entries: seq<Entry>, name: string) {
    exists i :: 0 <= i < |entries| && entries[i].vaultName == name
  }

  /** Replaces the first entry of that vault name, or appends. */
  function UpsertEntry(entries: seq<Entry>, entry: Entry): seq<Entry> {
    if entries == [] then [entry]
    else if entries[0].vaultName == entry.vaultName then [entry] + entries[1..]
    else [entries[0]] + UpsertEntry(entries[1..], entry)
  }

  /** The upsert is an update in place at the first entry of that name, or an append when there is none. */
  lemma {:induction false} UpsertAt(entries: seq<Entry>, entry: Entry, pos: nat)
    requires pos <= |entries| && forall k :: 0 <= k < pos ==> entries[k].vaultName != entry.vaultName
    requires pos < |entries| ==> entries[pos].vaultName == entry.vaultName
    ensures UpsertEntry(entries, entry) == if pos < |entries| then entries[pos := entry] else entries + [entry]
  {
    if pos > 0 {
      UpsertAt(entries[1..], entry, pos - 1);
      assert entries == [entries[0]] + entries[1..];
    } else if entries != [] {
      assert entries[0 := entry] == [entry] + entries[1..];
    }
  }

  /** The entry a lookup by name finds. */
  function Lookup(entries: seq<Entry>, name: string): Option<string> {
    if entries == [] then None
    else if entries[0].vaultName == name then Some(entries[0].secretRef)
    else Lookup(entries[1..], name)
  }

  lemma {:induction false} LookupAfterUpsert(entries: seq<Entry>, entry: Entry, name: string)
    ensures Lookup(UpsertEntry(entries, entry), name)
         == if name == entry.vaultName then Some(entry.secretRef) else Lookup(entries, name)
  {
    if entries == [] {
      assert [entry][1..] == [];
    } else if entries[0].vaultName == entry.vaultName {
      assert ([entry] + entries[1..])[1..] == entries[1..];
    } else {
      LookupAfterUpsert(entries[1..], entry, name);
      assert ([entries[0]] + UpsertEntry(entries[1..], entry))[1..] == UpsertEntry(entries[1..], entry);
    }
  }

  lemma {:induction false} RegisteredMeansFound(entries: seq<Entry>, name: string)
    ensures Registered(entries, name) <==> Lookup(entries, name).Some?
  {
    if entries != [] {
      RegisteredMeansFound(entries[1..], name);
      assert entries == [entries[0]] + entries[1..];
      if Registered(entries, name) && entries[0].vaultName != name {
        var i :| 0 <= i < |entries| && entries[i].vaultName == name;
        assert entries[1..][i - 1].vaultName == name;
      }
    }
  }
}
