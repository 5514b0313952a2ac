/** The store's key strings, and what listing code can read back from them. */
module RegistryKeys {
  import opened Options
  import opened Text
  import opened Json
  import opened RegistryStore

  predicate SlashFree(s: string) { '/' !in s }

  /** The path components below the blob prefix. */
  function Parts(key: Key): seq<string> {
    match key
    case Latest(pair) => [pair.scenario, pair.decisionType, "latest.json"]
    case Blob(pair, version, name) =>
      [pair.scenario, pair.decisionType, "versions", version,
       match name
       case Manifest => "manifest.json"
       case Temperature => "temperature.json"
       case Isotonic => "isotonic.json"
       case Numeric => "numeric.json"]
  }

  /** The names a key is built from contain no slash: what the request schema enforces. */
  predicate PlainKey(key: Key) {
    SlashFree(key.pair.scenario) && SlashFree(key.pair.decisionType) && (key.Blob? ==> SlashFree(key.version))
  }

  predicate PlainStore(store: Store) {
    forall key | key in store :: PlainKey(key)
  }

  function Render(prefix: string, key: Key): string {
    prefix + "/" + Join(Parts(key), '/')
  }

  predicate EndsWith(s: string, suffix: string) {
    |s| >= |suffix| && s[|s| - |suffix|..] == suffix
  }

  lemma PartsPlain(key: Key)
    requires PlainKey(key)
    ensures forall i | 0 <= i < |Parts(key)| :: '/' !in Parts(key)[i]
  {}

  /** Splitting undoes building. */
  lemma SplitRender(prefix: string, key: Key)
    requires PlainKey(key)
    ensures prefix + "/" <= Render(prefix, key)
    ensures Split(Render(prefix, key)[|prefix| + 1..], '/') == Parts(key)
  {
    PartsPlain(key);
    SplitJoin(Parts(key), '/');
    assert Render(prefix, key)[|prefix| + 1..] == Join(Parts(key), '/');
  }

  lemma RenderInjective(prefix: string, a: Key, b: Key)
    requires PlainKey(a) && PlainKey(b) && Render(prefix, a) == Render(prefix, b)
    ensures a == b
  {
    SplitRender(prefix, a);
    SplitRender(prefix, b);
    assert Parts(a) == Parts(b);
    assert |Parts(a)| == (if a.Latest? then 3 else 5);
    if a.Blob? {
      NamesDiffer(a.name, b.name);
      assert Parts(a)[4] == Parts(b)[4] && Parts(a)[3] == Parts(b)[3];
    }
    assert Parts(a)[0] == Parts(b)[0] && Parts(a)[1] == Parts(b)[1];
  }

  lemma NamesDiffer(a: BlobName, b: BlobName)
    ensures a != b ==> forall pair, version :: Parts(Blob(pair, version, a))[4] != Parts(Blob(pair, version, b))[4]
  {
    assert "manifest.json"[0] == 'm' && "temperature.json"[0] == 't' && "isotonic.json"[0] == 'i'
        && "numeric.json"[0] == 'n';
  }

  // ---- splitting a list_keys result ----

  /** What `list_scenarios` extracts from a key string. */
  function ParsePointerKey(prefix: string, text: string): Option<Pair> {
    if !(prefix + "/" <= text) || !EndsWith(text, "/latest.json") then None
    else
      var parts := Split(text[|prefix| + 1..], '/');
      if |parts| != 3 then None else Some(Pair(parts[0], parts[1]))
  }

  /** What `list_versions` extracts from a key string. */
  function ParseManifestKey(base: string, text: string): Option<string> {
    if !(base <= text) || !EndsWith(text, "/manifest.json") then None
    else Some(Split(text[|base|..], '/')[0])
  }

  function VersionsBase(prefix: string, pair: Pair): string {
    prefix + "/" + pair.scenario + "/" + pair.decisionType + "/versions/"
  }

  lemma JoinThree(a: string, b: string, c: string)
    ensures Join([a, b, c], '/') == a + "/" + b + "/" + c
  {
    assert [a, b, c][1..] == [b, c];
    assert [b, c][1..] == [c];
    assert Join([b, c], '/') == b + "/" + c;
  }

  lemma JoinFive(a: string, b: string, c: string, d: string, e: string)
    ensures Join([a, b, c, d, e], '/') == a + "/" + b + "/" + c + "/" + (d + "/" + e)
  {
    JoinCons(a, [b, c, d, e]);
    JoinCons(b, [c, d, e]);
    JoinThree(c, d, e);
    hide Join;
    assert a + "/" + (b + "/" + (c + "/" + d + "/" + e)) == a + "/" + b + "/" + c + "/" + (d + "/" + e);
  }

  lemma JoinCons(head: string, tail: seq<string>)
    requires tail != []
    ensures Join([head] + tail, '/') == head + "/" + Join(tail, '/')
  {
    assert ([head] + tail)[1..] == tail;
  }

  lemma PointerText(prefix: string, key: Key)
    requires key.Latest?
    ensures EndsWith(Render(prefix, key), "/latest.json")
  {
    var front := prefix + "/" + key.pair.scenario + "/" + key.pair.decisionType;
    JoinThree(key.pair.scenario, key.pair.decisionType, "latest.json");
    EndsWithTail(front, "/latest.json");
    assert Render(prefix, key) == front + "/latest.json";
  }

  /** Parsing a pointer key finds its pair, and no other key passes for one. */
  lemma PointerKeyParses(prefix: string, key: Key)
    requires PlainKey(key)
    ensures ParsePointerKey(prefix, Render(prefix, key)) == if key.Latest? then Some(key.pair) else None
  {
    hide Render, Split, EndsWith, PlainKey;
    SplitRender(prefix, key);
    if key.Latest? {
      PointerText(prefix, key);
    }
  }

  /** Text that continues a joined path splits into that path and the rest. */
  lemma SplitVersionsBase(scenario: string, decisionType: string, tail: string)
    requires SlashFree(scenario) && SlashFree(decisionType)
    ensures Split(scenario + "/" + decisionType + "/versions/" + tail, '/')
            == [scenario, decisionType, "versions"] + Split(tail, '/')
  {
    var rest2 := "versions" + "/" + tail;
    var rest1 := decisionType + "/" + rest2;
    assert scenario + "/" + decisionType + "/versions/" + tail == scenario + "/" + rest1;
    SplitHead(scenario, rest1, '/');
    SplitHead(decisionType, rest2, '/');
    assert SlashFree("versions");
    SplitHead("versions", tail, '/');
    assert [scenario] + ([decisionType] + (["versions"] + Split(tail, '/')))
        == [scenario, decisionType, "versions"] + Split(tail, '/');
  }

  lemma EndsWithTail(front: string, tail: string)
    ensures EndsWith(front + tail, tail)
  {}

  lemma FromEnd(front: string, tail: string, suffix: string, k: nat)
    requires 0 < k <= |tail| && k <= |suffix|
    requires tail[|tail| - k] != suffix[|suffix| - k]
    ensures !EndsWith(front + tail, suffix)
  {
    var text := front + tail;
    assert text[|text| - k] == tail[|tail| - k];
    if |text| >= |suffix| {
      assert text[|text| - |suffix|..][|suffix| - k] == text[|text| - k];
    }
  }

  lemma SlashManifest()
    ensures "/" + "manifest.json" == "/manifest.json"
  {}

  lemma ManifestSuffix(front: string, name: BlobName)
    ensures var last := match name case Manifest => "manifest.json" case Temperature => "temperature.json"
                                   case Isotonic => "isotonic.json" case Numeric => "numeric.json";
            EndsWith(front + ("/" + last), "/manifest.json") <==> name.Manifest?
  {
    match name
    case Manifest =>
      EndsWithTail(front, "/manifest.json");
      SlashManifest();
    case Temperature => FromEnd(front, "/" + "temperature.json", "/manifest.json", 7);
    case Isotonic => FromEnd(front, "/" + "isotonic.json", "/manifest.json", 7);
    case Numeric => FromEnd(front, "/" + "numeric.json", "/manifest.json", 7);
  }

  lemma BlobText(prefix: string, key: Key)
    requires key.Blob?
    ensures Render(prefix, key) == VersionsBase(prefix, key.pair) + (key.version + "/" + Parts(key)[4])
  {
    var last := Parts(key)[4];
    assert Parts(key) == [key.pair.scenario, key.pair.decisionType, "versions", key.version, last];
    hide Parts, Join;
    JoinFive(key.pair.scenario, key.pair.decisionType, "versions", key.version, last);
    Regroup(prefix, key.pair.scenario, key.pair.decisionType, key.version + "/" + last);
  }

  lemma Regroup(prefix: string, a: string, b: string, rest: string)
    ensures prefix + "/" + (a + "/" + b + "/" + "versions" + "/" + rest)
            == prefix + "/" + a + "/" + b + "/versions/" + rest
  {
    assert "/versions/" == "/" + "versions" + "/";
  }

  /** A key under another pair's versions base belongs to that pair. */
  lemma PartsUnderBase(key: Key, pair: Pair, tail: seq<string>)
    requires Parts(key) == [pair.scenario, pair.decisionType, "versions"] + tail && tail != []
    ensures key.Blob? && key.pair == pair && tail[0] == key.version
  {
    var parts := Parts(key);
    assert |parts| >= 4;
    assert parts[0] == pair.scenario && parts[1] == pair.decisionType && parts[3] == tail[0];
  }

  lemma UnderBase(prefix: string, pair: Pair, key: Key)
    requires PlainKey(key) && SlashFree(pair.scenario) && SlashFree(pair.decisionType)
    requires VersionsBase(prefix, pair) <= Render(prefix, key)
    ensures key.Blob? && key.pair == pair
    ensures Split(Render(prefix, key)[|VersionsBase(prefix, pair)|..], '/')[0] == key.version
  {
    var base, text := VersionsBase(prefix, pair), Render(prefix, key);
    SplitRender(prefix, key);
    var tail := text[|base|..];
    assert text == base + tail;
    assert text[|prefix| + 1..] == pair.scenario + "/" + pair.decisionType + "/versions/" + tail;
    SplitVersionsBase(pair.scenario, pair.decisionType, tail);
    hide Split, Render, VersionsBase;
    PartsUnderBase(key, pair, Split(tail, '/'));
  }

  /** Parsing a manifest key under a pair's base finds its version, and no other
      key passes for one. */
  lemma ManifestKeyParses(prefix: string, pair: Pair, key: Key)
    requires PlainKey(key) && SlashFree(pair.scenario) && SlashFree(pair.decisionType)
    ensures ParseManifestKey(VersionsBase(prefix, pair), Render(prefix, key))
         == if key.Blob? && key.pair == pair && key.name.Manifest? then Some(key.version) else None
  {
    var base, text := VersionsBase(prefix, pair), Render(prefix, key);
    if base <= text {
      UnderBase(prefix, pair, key);
    }
    if key.Blob? {
      BlobText(prefix, key);
      var front := VersionsBase(prefix, key.pair) + key.version;
      assert text == front + ("/" + Parts(key)[4]);
      ManifestSuffix(front, key.name);
    }
  }

  lemma ManifestUnderBase(prefix: string, pair: Pair, key: Key)
    requires PlainKey(key) && SlashFree(pair.scenario) && SlashFree(pair.decisionType)
    requires key.Blob? && key.pair == pair && key.name.Manifest?
    ensures VersionsBase(prefix, pair) <= Render(prefix, key)
  {
    ManifestKeyParses(prefix, pair, key);
  }

  /** The names the objects have in the store. */
  lemma KeysAre(prefix: string, pair: Pair, version: string)
    ensures var base := prefix + "/" + pair.scenario + "/" + pair.decisionType;
            && Render(prefix, Latest(pair)) == base + "/latest.json"
            && Render(prefix, Blob(pair, version, Manifest)) == base + "/versions/" + version + "/manifest.json"
            && Render(prefix, Blob(pair, version, Temperature)) == base + "/versions/" + version + "/temperature.json"
            && Render(prefix, Blob(pair, version, Isotonic)) == base + "/versions/" + version + "/isotonic.json"
            && Render(prefix, Blob(pair, version, Numeric)) == base + "/versions/" + version + "/numeric.json"
  {
    LatestText(prefix, pair);
    NamedText(prefix, pair, version, Manifest, "manifest.json");
    NamedText(prefix, pair, version, Temperature, "temperature.json");
    NamedText(prefix, pair, version, Isotonic, "isotonic.json");
    NamedText(prefix, pair, version, Numeric, "numeric.json");
    hide Render;
    forall text | text in {"manifest.json", "temperature.json", "isotonic.json", "numeric.json"}
      ensures "/" + text in {"/manifest.json", "/temperature.json", "/isotonic.json", "/numeric.json"}
    {
      Slashed();
    }
    Slashed();
  }

  lemma Slashed()
    ensures "/" + "manifest.json" == "/manifest.json" && "/" + "temperature.json" == "/temperature.json"
    ensures "/" + "isotonic.json" == "/isotonic.json" && "/" + "numeric.json" == "/numeric.json"
  {}

  lemma NamedText(prefix: string, pair: Pair, version: string, name: BlobName, text: string)
    requires Parts(Blob(pair, version, name))[4] == text
    ensures Render(prefix, Blob(pair, version, name))
         == prefix + "/" + pair.scenario + "/" + pair.decisionType + "/versions/" + version + ("/" + text)
  {
    BlobText(prefix, Blob(pair, version, name));
    hide Render, Parts;
    var base := VersionsBase(prefix, pair);
    assert base + (version + "/" + text) == base + version + ("/" + text);
  }

  lemma LatestText(prefix: string, pair: Pair)
    ensures Render(prefix, Latest(pair)) == prefix + "/" + pair.scenario + "/" + pair.decisionType + "/latest.json"
  {
    var parts := [pair.scenario, pair.decisionType, "latest.json"];
    assert Parts(Latest(pair)) == parts;
    JoinThree(pair.scenario, pair.decisionType, "latest.json");
    hide Parts, Join;
    assert "/latest.json" == "/" + "latest.json";
  }
}
