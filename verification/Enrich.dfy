/**
 Enriching a report with plugin sidecars: valid sidecars replace the report's extensions, findings that came
 from a plugin are dropped, and the findings of all extensions are appended.
 */
module Enrich {
  import opened Wrappers
  import opened KeyedFold
  import opened Lists

  /** A plugin's own finding; `addresses` lists its address fields in the order they are read, absent ones empty. */
  datatype Raw = Raw(category: string, addresses: seq<string>, severity: string)

  /** An extension or a sidecar; anything but a JSON object is `Other`. */
  datatype Artifact = Artifact(plugin: string, raws: seq<Raw>) | Other

  /** `source` is empty for a finding that names none. */
  datatype Finding = Finding(source: string, category: string, severity: string, nodes: seq<string>)

  type Extension = Item<string, Artifact>

  datatype Report = Report(extensions: seq<Extension>, findings: seq<Finding>)

  const PLUGINS: seq<string> := ["marlinspike-mitre", "marlinspike-arp", "marlinspike-apt", "marlinspike-cisa"]

  function Replace(held: Artifact, next: Artifact): Artifact { next }

  /** A sidecar counts when it is an object written by the plugin it is named after. */
  predicate Usable(sidecars: map<string, Artifact>, id: string) {
    id in sidecars && sidecars[id].Artifact? && sidecars[id].plugin == id
  }

  function Absorb(es: seq<Extension>, ids: seq<string>, sidecars: map<string, Artifact>): seq<Extension> {
    if ids == [] then es
    else
      var id, before := ids[|ids| - 1], Absorb(es, ids[..|ids| - 1], sidecars);
      if Usable(sidecars, id) then Put(Replace, before, Item(id, sidecars[id])) else before
  }

  function NonEmpty(s: seq<string>): seq<string> {
    if s == [] then [] else NonEmpty(s[..|s| - 1]) + (if s[|s| - 1] != "" then [s[|s| - 1]] else [])
  }

  function Severity(text: string): string {
    if text in ["CRITICAL", "HIGH", "MEDIUM", "LOW", "INFO"] then text else "MEDIUM"
  }

  /** A plugin's findings without a category are dropped. */
  function Adapted(id: string, raws: seq<Raw>): seq<Finding> {
    if raws == [] then []
    else
      var raw := raws[|raws| - 1];
      Adapted(id, raws[..|raws| - 1]) +
      (if raw.category == "" then []
       else [Finding(id, raw.category, Severity(raw.severity), AppendNew([], NonEmpty(raw.addresses)))])
  }

  function FromArtifact(id: string, a: Artifact): seq<Finding> {
    if a.Artifact? then Adapted(id, a.raws) else []
  }

  function Collected(es: seq<Extension>): seq<Finding> {
    if es == [] then []
    else Collected(es[..|es| - 1]) + FromArtifact(es[|es| - 1].key, es[|es| - 1].value)
  }

  function Stripped(fs: seq<Finding>, ids: seq<string>): seq<Finding> {
    if fs == [] then []
    else (if fs[0].source in ids then [] else [fs[0]]) + Stripped(fs[1..], ids)
  }

  function Merge(r: Report, sidecars: map<string, Artifact>): Report {
    var es := Absorb(r.extensions, PLUGINS, sidecars);
    Report(es, Stripped(r.findings, PLUGINS) + Collected(es))
  }

  // ---- the computation ----

  method AffectedNodes(addresses: seq<string>) returns (nodes: seq<string>)
    ensures nodes == AppendNew([], NonEmpty(addresses)) && Distinct(nodes)
  {
    nodes := [];
    var seen: set<string> := {};
    for i := 0 to |addresses|
      invariant nodes == AppendNew([], NonEmpty(addresses[..i]))
      invariant forall x :: x in seen <==> x in nodes
    {
      assert addresses[..i + 1][..i] == addresses[..i];
      var text := addresses[i];
      ghost var before := NonEmpty(addresses[..i]);
      assert NonEmpty(addresses[..i + 1]) == if text != "" then before + [text] else before;
      AppendNewConcat([], before, [text]);
      AppendOne(nodes, text);
      if text != "" && text !in seen {
        seen := seen + {text};
        nodes := nodes + [text];
      }
    }
    assert addresses[..|addresses|] == addresses;
    AppendNewDistinct([], NonEmpty(addresses));
  }

  method AdaptAll(id: string, raws: seq<Raw>) returns (fs: seq<Finding>)
    ensures fs == Adapted(id, raws)
  {
    fs := [];
    for i := 0 to |raws|
      invariant fs == Adapted(id, raws[..i])
    {
      assert raws[..i + 1][..i] == raws[..i];
      if raws[i].category != "" {
        var nodes := AffectedNodes(raws[i].addresses);
        fs := fs + [Finding(id, raws[i].category, Severity(raws[i].severity), nodes)];
      }
    }
    assert raws[..|raws|] == raws;
  }

  method Collect(es: seq<Extension>) returns (fs: seq<Finding>)
    ensures fs == Collected(es)
  {
    fs := [];
    for i := 0 to |es|
      invariant fs == Collected(es[..i])
    {
      assert es[..i + 1][..i] == es[..i];
      if es[i].value.Artifact? {
        var more := AdaptAll(es[i].key, es[i].value.raws);
        fs := fs + more;
      }
    }
    assert es[..|es|] == es;
  }

  method MergeReport(r: Report, sidecars: map<string, Artifact>) returns (merged: Report)
    ensures merged == Merge(r, sidecars)
  {
    var es := r.extensions;
    for i := 0 to |PLUGINS|
      invariant es == Absorb(r.extensions, PLUGINS[..i], sidecars)
    {
      assert PLUGINS[..i + 1][..i] == PLUGINS[..i];
      var id := PLUGINS[i];
      if id in sidecars && sidecars[id].Artifact? && sidecars[id].plugin == id {
        es := Put(Replace, es, Item(id, sidecars[id]));
      }
    }
    assert PLUGINS[..|PLUGINS|] == PLUGINS;
    var fs := Collect(es);
    merged := Report(es, Stripped(r.findings, PLUGINS) + fs);
  }

  // ---- merging again ----

  lemma {:induction false} PutSame(es: seq<Extension>, id: string, a: Artifact)
    requires Get(es, id) == Some(a)
    ensures Put(Replace, es, Item(id, a)) == es
  {
    if es[0].key != id {
      PutSame(es[1..], id, a);
    }
  }

  lemma {:induction false} AbsorbHolds(es: seq<Extension>, ids: seq<string>, sidecars: map<string, Artifact>,
        id: string)
    ensures Get(Absorb(es, ids, sidecars), id) ==
              if id in ids && Usable(sidecars, id) then Some(sidecars[id]) else Get(es, id)
  {
    if ids != [] {
      var init, last := ids[..|ids| - 1], ids[|ids| - 1];
      AbsorbHolds(es, init, sidecars, id);
      assert id in ids <==> id in init || id == last;
      if Usable(sidecars, last) {
        GetPut(Replace, Absorb(es, init, sidecars), Item(last, sidecars[last]), id);
      }
    }
  }

  lemma {:induction false} AbsorbAgain(es: seq<Extension>, ids: seq<string>, sidecars: map<string, Artifact>)
    requires forall id :: id in ids && Usable(sidecars, id) ==> Get(es, id) == Some(sidecars[id])
    ensures Absorb(es, ids, sidecars) == es
  {
    if ids != [] {
      var init, last := ids[..|ids| - 1], ids[|ids| - 1];
      AbsorbAgain(es, init, sidecars);
      assert last in ids;
      if Usable(sidecars, last) {
        PutSame(es, last, sidecars[last]);
      }
    }
  }

  lemma AbsorbTwice(es: seq<Extension>, ids: seq<string>, sidecars: map<string, Artifact>)
    ensures Absorb(Absorb(es, ids, sidecars), ids, sidecars) == Absorb(es, ids, sidecars)
  {
    forall id | id in ids && Usable(sidecars, id) ensures Get(Absorb(es, ids, sidecars), id) == Some(sidecars[id]) {
      AbsorbHolds(es, ids, sidecars, id);
    }
    AbsorbAgain(Absorb(es, ids, sidecars), ids, sidecars);
  }

  lemma {:induction false} StrippedConcat(fs: seq<Finding>, gs: seq<Finding>, ids: seq<string>)
    ensures Stripped(fs + gs, ids) == Stripped(fs, ids) + Stripped(gs, ids)
  {
    if fs == [] {
      assert fs + gs == gs;
    } else {
      assert (fs + gs)[1..] == fs[1..] + gs;
      StrippedConcat(fs[1..], gs, ids);
    }
  }

  lemma {:induction false} StrippedTwice(fs: seq<Finding>, ids: seq<string>)
    ensures Stripped(Stripped(fs, ids), ids) == Stripped(fs, ids)
  {
    if fs != [] {
      StrippedTwice(fs[1..], ids);
      if fs[0].source in ids {
        assert Stripped(fs, ids) == Stripped(fs[1..], ids);
      } else {
        assert Stripped(fs, ids)[1..] == Stripped(fs[1..], ids);
      }
    }
  }

  lemma {:induction false} AdaptedStripped(id: string, raws: seq<Raw>, ids: seq<string>)
    ensures Stripped(Adapted(id, raws), ids) == if id in ids then [] else Adapted(id, raws)
  {
    if raws != [] {
      var init, raw := raws[..|raws| - 1], raws[|raws| - 1];
      AdaptedStripped(id, init, ids);
      if raw.category != "" {
        var f := Finding(id, raw.category, Severity(raw.severity), AppendNew([], NonEmpty(raw.addresses)));
        StrippedConcat(Adapted(id, init), [f], ids);
        assert [f][1..] == [];
      } else {
        assert Adapted(id, raws) == Adapted(id, init);
      }
    }
  }

  /** The extensions of plugins the program does not know. */
  function Foreign(es: seq<Extension>, ids: seq<string>): seq<Extension> {
    if es == [] then []
    else Foreign(es[..|es| - 1], ids) + (if es[|es| - 1].key in ids then [] else [es[|es| - 1]])
  }

  lemma ArtifactStripped(id: string, a: Artifact, ids: seq<string>)
    ensures Stripped(FromArtifact(id, a), ids) == if id in ids then [] else FromArtifact(id, a)
  {
    if a.Artifact? {
      AdaptedStripped(id, a.raws, ids);
    }
  }

  lemma CollectedSnoc(es: seq<Extension>, x: Extension)
    ensures Collected(es + [x]) == Collected(es) + FromArtifact(x.key, x.value)
  {
    assert (es + [x])[..|es|] == es;
  }

  lemma {:induction false} CollectedStripped(es: seq<Extension>, ids: seq<string>)
    ensures Stripped(Collected(es), ids) == Collected(Foreign(es, ids))
  {
    if es != [] {
      var init, last := es[..|es| - 1], es[|es| - 1];
      CollectedStripped(init, ids);
      StrippedConcat(Collected(init), FromArtifact(last.key, last.value), ids);
      ArtifactStripped(last.key, last.value, ids);
      if last.key in ids {
        assert Foreign(es, ids) == Foreign(init, ids);
      } else {
        CollectedSnoc(Foreign(init, ids), last);
      }
    }
  }

  lemma {:induction false} ForeignConcat(es: seq<Extension>, gs: seq<Extension>, ids: seq<string>)
    ensures Foreign(es + gs, ids) == Foreign(es, ids) + Foreign(gs, ids)
    decreases |gs|
  {
    if gs == [] {
      assert es + gs == es;
    } else {
      assert (es + gs)[..|es + gs| - 1] == es + gs[..|gs| - 1];
      ForeignConcat(es, gs[..|gs| - 1], ids);
    }
  }

  lemma {:induction false} ForeignPut(es: seq<Extension>, x: Extension, ids: seq<string>)
    requires x.key in ids
    ensures Foreign(Put(Replace, es, x), ids) == Foreign(es, ids)
  {
    if es == [] {
      assert [x][..0] == [];
    } else {
      var first := es[0];
      assert [first][..0] == [];
      assert es == [first] + es[1..];
      ForeignConcat([first], es[1..], ids);
      if first.key == x.key {
        var y: Extension := Item(x.key, x.value);
        assert [y][..0] == [];
        ForeignConcat([y], es[1..], ids);
      } else {
        ForeignPut(es[1..], x, ids);
        ForeignConcat([first], Put(Replace, es[1..], x), ids);
      }
    }
  }

  lemma {:induction false} ForeignAbsorb(es: seq<Extension>, ids: seq<string>, done: seq<string>,
        sidecars: map<string, Artifact>)
    requires forall id :: id in done ==> id in ids
    ensures Foreign(Absorb(es, done, sidecars), ids) == Foreign(es, ids)
  {
    if done != [] {
      var init, last := done[..|done| - 1], done[|done| - 1];
      ForeignAbsorb(es, ids, init, sidecars);
      assert last in done;
      if Usable(sidecars, last) {
        ForeignPut(Absorb(es, init, sidecars), Item(last, sidecars[last]), ids);
      }
    }
  }

  /** Merging a merged report changes nothing exactly when no extension of an unknown plugin has a finding with a
      category. */
  lemma MergeAgain(r: Report, sidecars: map<string, Artifact>)
    ensures Merge(Merge(r, sidecars), sidecars) == Merge(r, sidecars) <==>
          Collected(Foreign(r.extensions, PLUGINS)) == []
  {
    var ids := PLUGINS;
    var es, base := Absorb(r.extensions, ids, sidecars), Stripped(r.findings, ids);
    AbsorbTwice(r.extensions, ids, sidecars);
    StrippedConcat(base, Collected(es), ids);
    StrippedTwice(r.findings, ids);
    CollectedStripped(es, ids);
    ForeignAbsorb(r.extensions, ids, ids, sidecars);
    Inserted(base, Collected(Foreign(r.extensions, ids)), Collected(es));
  }

  /** A report with an extension of another plugin, which has one finding, grows each time it is merged. */
  lemma ForeignFindingRepeats(id: string, raw: Raw)
    requires id !in PLUGINS && raw.category != ""
    ensures var r := Report([Item(id, Artifact(id, [raw]))], []);
            Merge(Merge(r, map[]), map[]) != Merge(r, map[])
  {
    var x: Extension := Item(id, Artifact(id, [raw]));
    var r := Report([x], []);
    OneExtension(x, PLUGINS);
    var one := [raw];
    assert one[..|one| - 1] == [];
    assert Adapted(id, one) != [];
    MergeAgain(r, map[]);
  }

  lemma OneExtension(x: Extension, ids: seq<string>)
    requires x.key !in ids
    ensures Foreign([x], ids) == [x] && Collected([x]) == FromArtifact(x.key, x.value)
  {
    var one := [x];
    assert one[..|one| - 1] == [];
  }

  lemma Inserted<T>(a: seq<T>, b: seq<T>, c: seq<T>)
    ensures a + b + c == a + c <==> b == []
  {
    if b == [] {
      assert a + b == a;
    } else {
      assert |a + b + c| > |a + c|;
    }
  }

  // ---- what a merged report holds ----

  function BySource(fs: seq<Finding>, id: string): seq<Finding> {
    if fs == [] then [] else (if fs[0].source == id then [fs[0]] else []) + BySource(fs[1..], id)
  }

  lemma BySourceCons(f: Finding, fs: seq<Finding>, id: string)
    ensures BySource([f] + fs, id) == (if f.source == id then [f] else []) + BySource(fs, id)
  {
    var all := [f] + fs;
    assert all[0] == f && all[1..] == fs;
  }

  lemma {:induction false} BySourceConcat(fs: seq<Finding>, gs: seq<Finding>, id: string)
    ensures BySource(fs + gs, id) == BySource(fs, id) + BySource(gs, id)
  {
    hide BySource;
    if fs == [] {
      BySourceNothing(id);
      assert fs + gs == gs;
    } else {
      var f, rest := fs[0], fs[1..];
      assert fs == [f] + rest && fs + gs == [f] + (rest + gs);
      BySourceConcat(rest, gs, id);
      BySourceCons(f, rest, id);
      BySourceCons(f, rest + gs, id);
    }
  }

  lemma {:induction false} BySourceStripped(fs: seq<Finding>, id: string, ids: seq<string>)
    ensures BySource(Stripped(fs, ids), id) == if id in ids then [] else BySource(fs, id)
  {
    if fs != [] {
      BySourceStripped(fs[1..], id, ids);
      BySourceConcat(if fs[0].source in ids then [] else [fs[0]], Stripped(fs[1..], ids), id);
      assert [fs[0]][1..] == [];
    }
  }

  lemma {:induction false} BySourceAdapted(id: string, raws: seq<Raw>, source: string)
    ensures BySource(Adapted(id, raws), source) == if id == source then Adapted(id, raws) else []
  {
    if raws != [] {
      var init, raw := raws[..|raws| - 1], raws[|raws| - 1];
      BySourceAdapted(id, init, source);
      if raw.category != "" {
        var f := Finding(id, raw.category, Severity(raw.severity), AppendNew([], NonEmpty(raw.addresses)));
        BySourceConcat(Adapted(id, init), [f], source);
        assert [f][1..] == [];
      } else {
        assert Adapted(id, raws) == Adapted(id, init);
      }
    }
  }

  function FrontCollected(es: seq<Extension>): seq<Finding> {
    if es == [] then [] else FromArtifact(es[0].key, es[0].value) + FrontCollected(es[1..])
  }

  lemma {:induction false} CollectedFront(es: seq<Extension>)
    ensures Collected(es) == FrontCollected(es)
  {
    if |es| > 0 {
      var init, last := es[..|es| - 1], es[|es| - 1];
      CollectedFront(init);
      FrontSnoc(init, last);
      assert es == init + [last];
    }
  }

  lemma {:induction false} FrontSnoc(es: seq<Extension>, x: Extension)
    ensures FrontCollected(es + [x]) == FrontCollected(es) + FromArtifact(x.key, x.value)
  {
    if es == [] {
      assert (es + [x])[1..] == [];
    } else {
      assert (es + [x])[1..] == es[1..] + [x];
      FrontSnoc(es[1..], x);
    }
  }

  lemma BySourceArtifact(key: string, a: Artifact, id: string)
    ensures BySource(FromArtifact(key, a), id) == if key == id then FromArtifact(key, a) else []
  {
    if a.Artifact? {
      BySourceAdapted(key, a.raws, id);
    }
  }

  lemma {:induction false} BySourceCollected(es: seq<Extension>, id: string)
    requires OncePerKey(es)
    ensures BySource(FrontCollected(es), id) == match Get(es, id) case None => [] case Some(a) => FromArtifact(id, a)
  {
    hide BySource, FromArtifact;
    if es == [] {
      BySourceNothing(id);
    } else {
      BySourceCollected(es[1..], id);
      BySourceConcat(FromArtifact(es[0].key, es[0].value), FrontCollected(es[1..]), id);
      BySourceArtifact(es[0].key, es[0].value, id);
    }
  }

  lemma BySourceNothing(id: string)
    ensures BySource([], id) == []
  {
  }

  lemma {:induction false} AbsorbOncePerKey(es: seq<Extension>, ids: seq<string>, sidecars: map<string, Artifact>)
    requires OncePerKey(es)
    ensures OncePerKey(Absorb(es, ids, sidecars))
  {
    if ids != [] {
      var init, last := ids[..|ids| - 1], ids[|ids| - 1];
      AbsorbOncePerKey(es, init, sidecars);
      if Usable(sidecars, last) {
        PutOncePerKey(Replace, Absorb(es, init, sidecars), Item(last, sidecars[last]));
      }
    }
  }

  /**
   The findings of a known plugin in a merged report are those of its sidecar (or of the extension already
   there), each once and in order; those of any other source are kept as they were, plus its extension's.
   */
  lemma EachFindingOnce(r: Report, sidecars: map<string, Artifact>, id: string)
    requires OncePerKey(r.extensions)
    ensures BySource(Merge(r, sidecars).findings, id) ==
              (if id in PLUGINS then [] else BySource(r.findings, id)) +
              (if id in PLUGINS && Usable(sidecars, id) then Adapted(id, sidecars[id].raws)
               else match Get(r.extensions, id) case None => [] case Some(a) => FromArtifact(id, a))
  {
    var ids := PLUGINS;
    var es := Absorb(r.extensions, ids, sidecars);
    BySourceConcat(Stripped(r.findings, ids), Collected(es), id);
    BySourceStripped(r.findings, id, ids);
    CollectedFront(es);
    AbsorbOncePerKey(r.extensions, ids, sidecars);
    BySourceCollected(es, id);
    AbsorbHolds(r.extensions, ids, sidecars, id);
  }

  // ---- what becomes of a plugin's finding ----

  /** A plugin's findings that have a category, in order. */
  function Categorised(raws: seq<Raw>): seq<Raw> {
    if raws == [] then []
    else Categorised(raws[..|raws| - 1]) + (if raws[|raws| - 1].category != "" then [raws[|raws| - 1]] else [])
  }

  /** The addresses are the non-empty ones, each once, in the order in which they first appear. */
  ghost predicate FirstAppearances(nodes: seq<string>, addresses: seq<string>) {
    && (forall x :: x in nodes <==> x in addresses && x != "")
    && Distinct(nodes)
    && forall i, j :: 0 <= i < j < |nodes| ==> Before(addresses, nodes[i], nodes[j])
  }

  /** `x` appears before `y` first does. */
  predicate Before(addresses: seq<string>, x: string, y: string) {
    exists n :: 0 <= n < |addresses| && addresses[n] == x && y !in addresses[..n]
  }

  /** The finding says of itself which plugin it is from, keeps the category, and takes a severity that is none of the
      five for medium. */
  ghost predicate Adapts(f: Finding, raw: Raw, id: string) {
    && f.source == id && f.category == raw.category && f.category != ""
    && f.severity == (if raw.severity in {"CRITICAL", "HIGH", "MEDIUM", "LOW", "INFO"} then raw.severity else "MEDIUM")
    && FirstAppearances(f.nodes, raw.addresses)
  }

  lemma {:induction false} NonEmptyMember(s: seq<string>, x: string)
    ensures x in NonEmpty(s) <==> x in s && x != ""
  {
    if s != [] {
      NonEmptyMember(s[..|s| - 1], x);
      assert s == s[..|s| - 1] + [s[|s| - 1]];
    }
  }

  lemma NodesNext(addresses: seq<string>, x: string)
    ensures var nodes := AppendNew([], NonEmpty(addresses));
            AppendNew([], NonEmpty(addresses + [x])) == if x == "" || x in nodes then nodes else nodes + [x]
  {
    assert (addresses + [x])[..|addresses|] == addresses;
    if x == "" {
      assert NonEmpty(addresses + [x]) == NonEmpty(addresses) + [] == NonEmpty(addresses);
    } else {
      AppendNewConcat([], NonEmpty(addresses), [x]);
      AppendOne(AppendNew([], NonEmpty(addresses)), x);
    }
  }

  lemma BeforeLonger(addresses: seq<string>, z: string, x: string, y: string)
    requires Before(addresses, x, y)
    ensures Before(addresses + [z], x, y)
  {
    var n :| 0 <= n < |addresses| && addresses[n] == x && y !in addresses[..n];
    assert (addresses + [z])[n] == x && (addresses + [z])[..n] == addresses[..n];
  }

  lemma BeforeNew(addresses: seq<string>, x: string, y: string)
    requires x in addresses && y !in addresses
    ensures Before(addresses + [y], x, y)
  {
    var n :| 0 <= n < |addresses| && addresses[n] == x;
    assert (addresses + [y])[n] == x && (addresses + [y])[..n] == addresses[..n];
  }

  lemma {:induction false} NodesExact(addresses: seq<string>)
    ensures FirstAppearances(AppendNew([], NonEmpty(addresses)), addresses)
  {
    if addresses != [] {
      var init, x := addresses[..|addresses| - 1], addresses[|addresses| - 1];
      NodesExact(init);
      assert addresses == init + [x];
      NodesNext(init, x);
      hide AppendNew, NonEmpty, FirstAppearances;
      AppearancesNext(AppendNew([], NonEmpty(init)), init, x);
    }
  }

  lemma AppearancesNext(held: seq<string>, init: seq<string>, x: string)
    requires FirstAppearances(held, init)
    ensures FirstAppearances(if x == "" || x in held then held else held + [x], init + [x])
  {
    var nodes := if x == "" || x in held then held else held + [x];
    hide Before;
    forall i, j | 0 <= i < j < |nodes| ensures Before(init + [x], nodes[i], nodes[j]) {
      if j < |held| {
        BeforeLonger(init, x, held[i], held[j]);
      } else {
        assert held[i] in held;
        BeforeNew(init, held[i], x);
      }
    }
  }

  /** A plugin's findings become one each, in order, those without a category none. */
  lemma {:induction false} AdaptedExact(id: string, raws: seq<Raw>)
    ensures |Adapted(id, raws)| == |Categorised(raws)|
    ensures forall i :: 0 <= i < |Adapted(id, raws)| ==> Adapts(Adapted(id, raws)[i], Categorised(raws)[i], id)
  {
    if raws != [] {
      AdaptedExact(id, raws[..|raws| - 1]);
      NodesExact(raws[|raws| - 1].addresses);
      hide AppendNew, NonEmpty, FirstAppearances;
    }
  }

  /** The plugins the program knows. */
  lemma KnownPlugins(id: string)
    ensures id in PLUGINS <==> id in {"marlinspike-mitre", "marlinspike-arp", "marlinspike-apt", "marlinspike-cisa"}
    ensures Distinct(PLUGINS)
  {
    assert PLUGINS[0][12] == 'm' && PLUGINS[1][12..15] == "arp" && PLUGINS[2][12..15] == "apt" && PLUGINS[3][12] == 'c';
  }
}
