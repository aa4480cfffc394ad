/** Supergraph configuration and composition for the Apollo router
    gateway: the proxy targets become the subgraph list of a configuration
    file, and the composed schema is swapped in only when its content
    changed. The file system is a map from path to content; the YAML
    serialisation is an opaque `render` function; each run of the external
    composer is represented by its output (`None` when the command fails). */
module Supergraph {
  import opened Wrappers

  datatype ProxyTarget = ProxyTarget(name: string, address: string)

  datatype Subgraph = Subgraph(routingUrl: string, subgraphUrl: string)

  /** The configuration object; `subgraphs` lists the object's properties
      in insertion order, which is the order the serialisation sees. */
  datatype SupergraphConfig = SupergraphConfig(federationVersion: string, subgraphs: seq<(string, Subgraph)>)

  const FederationVersion := "=2.3.1"

  function Endpoint(address: string): string {
    address + "/graphql"
  }

  function SubgraphAt(address: string): Subgraph {
    Subgraph(Endpoint(address), Endpoint(address))
  }

  /** The property names of the subgraph object. */
  function Keys(entries: seq<(string, Subgraph)>): set<string>
    decreases |entries|
  {
    if entries == [] then {} else {entries[0].0} + Keys(entries[1..])
  }

  predicate DistinctKeys(entries: seq<(string, Subgraph)>)
    decreases |entries|
  {
    entries == [] || (entries[0].0 !in Keys(entries[1..]) && DistinctKeys(entries[1..]))
  }

  function Lookup(entries: seq<(string, Subgraph)>, name: string): Option<Subgraph>
    decreases |entries|
  {
    if entries == [] then None
    else if entries[0].0 == name then Some(entries[0].1)
    else Lookup(entries[1..], name)
  }

  /** `subgraphs[name] = value`: an existing property keeps its position and
      takes the new value, a new one is appended. */
  function Put(entries: seq<(string, Subgraph)>, name: string, value: Subgraph): (r: seq<(string, Subgraph)>)
    ensures Keys(r) == Keys(entries) + {name}
    ensures DistinctKeys(entries) ==> DistinctKeys(r)
    ensures Lookup(r, name) == Some(value)
    ensures forall n :: n != name ==> Lookup(r, n) == Lookup(entries, n)
    ensures name in Keys(entries) ==> |r| == |entries|
    ensures name in Keys(entries) ==>
              forall i :: 0 <= i < |r| ==> r[i].0 == entries[i].0 && (r[i].0 != name ==> r[i] == entries[i])
    ensures name !in Keys(entries) ==> r == entries + [(name, value)]
    decreases |entries|
  {
    if entries == [] then [(name, value)]
    else if entries[0].0 == name then
      assert ([(name, value)] + entries[1..])[1..] == entries[1..];
      [(name, value)] + entries[1..]
    else
      var rest := Put(entries[1..], name, value);
      assert ([entries[0]] + rest)[1..] == rest;
      assert entries == [entries[0]] + entries[1..];
      [entries[0]] + rest
  }

  /** The loop of `createSupergraphConfig` over the proxy targets. */
  function Subgraphs(targets: seq<ProxyTarget>): (entries: seq<(string, Subgraph)>)
    decreases |targets|
  {
    if targets == [] then []
    else
      var last := targets[|targets| - 1];
      Put(Subgraphs(targets[..|targets| - 1]), last.name, SubgraphAt(last.address))
  }

  function TargetNames(targets: seq<ProxyTarget>): set<string> {
    set i | 0 <= i < |targets| :: targets[i].name
  }

  /** `targets[i]` is the last target called `name`. */
  predicate LastNamed(targets: seq<ProxyTarget>, i: int, name: string) {
    0 <= i < |targets| && targets[i].name == name &&
    forall j :: i < j < |targets| ==> targets[j].name != name
  }

  /** Reference definition: the address of the last target called `name`. */
  function LastAddress(targets: seq<ProxyTarget>, name: string): (a: Option<string>)
    ensures a.None? <==> name !in TargetNames(targets)
    ensures a.Some? ==> exists i :: LastNamed(targets, i, name) && targets[i].address == a.value
    decreases |targets|
  {
    if targets == [] then None
    else
      var k := |targets| - 1;
      if targets[k].name == name then
        assert LastNamed(targets, k, name);
        Some(targets[k].address)
      else
        var init := targets[..k];
        var a := LastAddress(init, name);
        assert forall i :: 0 <= i < k ==> targets[i] == init[i];
        assert name in TargetNames(targets) <==> name in TargetNames(init) by {
          if name in TargetNames(targets) {
            var i :| 0 <= i < |targets| && targets[i].name == name;
            assert name == init[i].name;
          }
        }
        if a.Some? then
          var i :| LastNamed(init, i, name) && init[i].address == a.value;
          assert LastNamed(targets, i, name);
          a
        else a
  }

  lemma {:induction false} SubgraphsSpec(targets: seq<ProxyTarget>)
    ensures Keys(Subgraphs(targets)) == TargetNames(targets)
    ensures DistinctKeys(Subgraphs(targets))
    ensures forall n :: Lookup(Subgraphs(targets), n) ==
              match LastAddress(targets, n) case None => None case Some(a) => Some(SubgraphAt(a))
    decreases |targets|
  {
    if targets != [] {
      var k := |targets| - 1;
      var init := targets[..k];
      SubgraphsSpec(init);
      assert TargetNames(targets) == TargetNames(init) + {targets[k].name} by {
        assert forall i :: 0 <= i < k ==> targets[i] == init[i];
      }
    }
  }

  lemma {:induction false} DistinctKeysCount(entries: seq<(string, Subgraph)>)
    requires DistinctKeys(entries)
    ensures |Keys(entries)| == |entries|
    decreases |entries|
  {
    if entries != [] {
      DistinctKeysCount(entries[1..]);
    }
  }

  /** The configuration `createSupergraphConfig` writes: federation version
      2.3.1, one subgraph per distinct target name, routed to and introspected
      at the address of the last target with that name plus `/graphql`. */
  function BuildConfig(targets: seq<ProxyTarget>): (c: SupergraphConfig)
    ensures c.federationVersion == "=2.3.1"
    ensures Keys(c.subgraphs) == TargetNames(targets)
    ensures DistinctKeys(c.subgraphs)
    ensures |c.subgraphs| == |TargetNames(targets)|
    ensures forall n :: Lookup(c.subgraphs, n) ==
              match LastAddress(targets, n) case None => None case Some(a) => Some(SubgraphAt(a))
  {
    SubgraphsSpec(targets);
    DistinctKeysCount(Subgraphs(targets));
    SupergraphConfig(FederationVersion, Subgraphs(targets))
  }

  // ------------------------------------------------------------------ files

  type FileSystem = map<string, string>

  /** The two artifact paths (their definition is not part of this model). */
  datatype Paths = Paths(config: string, schema: string)

  function NextOf(path: string): string {
    path + ".next"
  }

  /** The four files the composition touches are four different files. */
  predicate DistinctPaths(p: Paths) {
    && p.config != p.schema
    && p.config != NextOf(p.schema)
    && NextOf(p.config) != p.schema
    && NextOf(p.config) != NextOf(p.schema)
  }

  /** `path` has the same presence and content in both file systems. */
  predicate Unchanged(before: FileSystem, after: FileSystem, path: string) {
    (path in before <==> path in after) && (path in before ==> before[path] == after[path])
  }

  /** Writes `content` to `target` unless it already holds exactly that
      content: the copy-if-changed step shared by both artifacts. */
  function CopyIfChanged(fs: FileSystem, target: string, content: string): (r: (FileSystem, bool))
    ensures target in r.0 && r.0[target] == content
    ensures r.1 <==> target !in fs || fs[target] != content
    ensures !r.1 ==> r.0 == fs
    ensures forall p :: p != target ==> Unchanged(fs, r.0, p)
  {
    if target !in fs || fs[target] != content then (fs[target := content], true) else (fs, false)
  }

  /** Writes `content` to `<target>.next`, then copies it over `target` if
      that is missing or differs: the staging both artifacts go through. */
  function StageAndCopy(fs: FileSystem, target: string, content: string): (r: (FileSystem, bool))
    ensures NextOf(target) in r.0 && r.0[NextOf(target)] == content
    ensures target in r.0 && r.0[target] == content
    ensures r.1 <==> target !in fs || fs[target] != content
    ensures forall p :: p != target && p != NextOf(target) ==> Unchanged(fs, r.0, p)
  {
    assert NextOf(target) != target by {
      assert |NextOf(target)| != |target|;
    }
    var written := fs[NextOf(target) := content];
    CopyIfChanged(written, target, written[NextOf(target)])
  }

  /** Staging the same content again copies nothing and changes no file. */
  lemma StageAgainKeepsFiles(fs: FileSystem, target: string, content: string)
    ensures var first := StageAndCopy(fs, target, content).0;
            StageAndCopy(first, target, content) == (first, false)
  {
    var first := StageAndCopy(fs, target, content).0;
    assert first[NextOf(target) := content] == first;
  }

  datatype ConfigStep = ConfigStep(fs: FileSystem, copied: bool)

  /** `createSupergraphConfig(targets)`: the rendered configuration is
      written to `<config>.next`, then copied over the active configuration
      only if that is missing or differs from it. */
  function CreateSupergraphConfig(fs: FileSystem, paths: Paths, targets: seq<ProxyTarget>,
                                  render: SupergraphConfig -> string): (r: ConfigStep)
    ensures var content := render(BuildConfig(targets));
            && NextOf(paths.config) in r.fs && r.fs[NextOf(paths.config)] == content
            && paths.config in r.fs && r.fs[paths.config] == content
            && (r.copied <==> paths.config !in fs || fs[paths.config] != content)
    ensures forall p :: p != paths.config && p != NextOf(paths.config) ==> Unchanged(fs, r.fs, p)
  {
    var (after, copied) := StageAndCopy(fs, paths.config, render(BuildConfig(targets)));
    ConfigStep(after, copied)
  }

  /** Creating the configuration twice from the same targets does not copy
      the second time, and leaves every file as the first run left it. */
  lemma CreateConfigIdempotent(fs: FileSystem, paths: Paths, targets: seq<ProxyTarget>,
                               render: SupergraphConfig -> string)
    ensures var first := CreateSupergraphConfig(fs, paths, targets, render);
            var second := CreateSupergraphConfig(first.fs, paths, targets, render);
            !second.copied && second.fs == first.fs
  {
    StageAgainKeepsFiles(fs, paths.config, render(BuildConfig(targets)));
  }

  const Production := "production"
  const Development := "development"

  /** The outcome of one composition: it completed (and replaced the active
      schema or not), the process exited after composing, or the composer
      failed and the error propagates. */
  datatype ComposeStep = Composed(fs: FileSystem, replaced: bool) | Exited(fs: FileSystem) | Failed(fs: FileSystem)

  /** `supergraphComposeOnce()`, given what the composer produces on this
      run. In production an existing schema is left alone; otherwise the
      composer writes the schema and the process exits. Elsewhere the output
      goes to `<schema>.next` and replaces the active schema only if that is
      missing or differs. */
  function ComposeOnce(fs: FileSystem, paths: Paths, nodeEnv: string, output: Option<string>): (r: ComposeStep)
    ensures nodeEnv == Production && paths.schema in fs ==> r == Composed(fs, false)
    ensures nodeEnv == Production && paths.schema !in fs ==>
              if output.Some? then r == Exited(fs[paths.schema := output.value]) else r == Failed(fs)
    ensures nodeEnv != Production ==> (r.Composed? <==> output.Some?)
    ensures nodeEnv != Production && output.Some? ==>
              && paths.schema in r.fs && r.fs[paths.schema] == output.value
              && (r.replaced <==> paths.schema !in fs || fs[paths.schema] != output.value)
    ensures r.Failed? ==> r.fs == fs
    ensures forall p :: p != paths.schema && p != NextOf(paths.schema) ==> Unchanged(fs, r.fs, p)
  {
    if nodeEnv == Production then
      if paths.schema in fs then Composed(fs, false)
      else if output.None? then Failed(fs)
      else Exited(fs[paths.schema := output.value])
    else if output.None? then Failed(fs)
    else
      var (after, replaced) := StageAndCopy(fs, paths.schema, output.value);
      Composed(after, replaced)
  }

  /** Outside production, composing again with the same output replaces
      nothing and changes no file. */
  lemma RecomposeUnchangedOutput(fs: FileSystem, paths: Paths, nodeEnv: string, output: string)
    requires nodeEnv != Production
    ensures var first := ComposeOnce(fs, paths, nodeEnv, Some(output));
            ComposeOnce(first.fs, paths, nodeEnv, Some(output)) == Composed(first.fs, false)
  {
    StageAgainKeepsFiles(fs, paths.schema, output);
  }

  /** Two steps that leave every file outside the schema pair alone leave
      it alone together. */
  lemma UnchangedOutsideSchemaChains(a: FileSystem, b: FileSystem, c: FileSystem, paths: Paths)
    requires forall p :: p != paths.schema && p != NextOf(paths.schema) ==> Unchanged(a, b, p)
    requires forall p :: p != paths.schema && p != NextOf(paths.schema) ==> Unchanged(b, c, p)
    ensures forall p :: p != paths.schema && p != NextOf(paths.schema) ==> Unchanged(a, c, p)
  {
    forall p | p != paths.schema && p != NextOf(paths.schema)
      ensures Unchanged(a, c, p)
    {
      assert Unchanged(a, b, p) && Unchanged(b, c, p);
    }
  }

  /** The development poll: every tick recomposes; a failing run is logged
      and leaves the files as they were. */
  function Poll(fs: FileSystem, paths: Paths, outputs: seq<Option<string>>): (after: FileSystem)
    ensures forall p :: p != paths.schema && p != NextOf(paths.schema) ==> Unchanged(fs, after, p)
    ensures outputs != [] && outputs[|outputs| - 1].Some? ==>
              paths.schema in after && after[paths.schema] == outputs[|outputs| - 1].value
    decreases |outputs|
  {
    if outputs == [] then fs
    else
      var mid := ComposeOnce(fs, paths, Development, outputs[0]).fs;
      var after := Poll(mid, paths, outputs[1..]);
      UnchangedOutsideSchemaChains(fs, mid, after, paths);
      assert |outputs| > 1 ==> outputs[1..][|outputs| - 2] == outputs[|outputs| - 1];
      after
  }

  /** `supergraphCompose(targets)`: the configuration is created once from
      the initial targets, composed once, and in development recomposed on
      every poll tick (one composer output per tick). */
  function SupergraphCompose(fs: FileSystem, paths: Paths, nodeEnv: string, targets: seq<ProxyTarget>,
                             render: SupergraphConfig -> string, first: Option<string>,
                             ticks: seq<Option<string>>): (r: ComposeStep)
    ensures r.Failed? ==> first.None?
  {
    var configured := CreateSupergraphConfig(fs, paths, targets, render).fs;
    var once := ComposeOnce(configured, paths, nodeEnv, first);
    if once.Composed? && nodeEnv == Development then Composed(Poll(once.fs, paths, ticks), once.replaced)
    else once
  }

  /** Poll ticks only recompose: the configuration files are never touched. */
  lemma {:induction false} PollKeepsConfig(fs: FileSystem, paths: Paths, outputs: seq<Option<string>>)
    requires DistinctPaths(paths)
    ensures Unchanged(fs, Poll(fs, paths, outputs), paths.config)
    ensures Unchanged(fs, Poll(fs, paths, outputs), NextOf(paths.config))
    decreases |outputs|
  {
    if outputs != [] {
      PollKeepsConfig(ComposeOnce(fs, paths, Development, outputs[0]).fs, paths, outputs[1..]);
    }
  }

  /** Ticks whose composer output equals the active schema rewrite nothing. */
  lemma {:induction false} PollStableOutput(fs: FileSystem, paths: Paths, outputs: seq<Option<string>>)
    requires paths.schema in fs && NextOf(paths.schema) in fs
    requires fs[NextOf(paths.schema)] == fs[paths.schema]
    requires forall i :: 0 <= i < |outputs| ==> outputs[i] == Some(fs[paths.schema])
    ensures Poll(fs, paths, outputs) == fs
    decreases |outputs|
  {
    if outputs != [] {
      var step := ComposeOnce(fs, paths, Development, outputs[0]);
      assert step.fs == fs by {
        assert NextOf(paths.schema) != paths.schema by {
          assert |NextOf(paths.schema)| != |paths.schema|;
        }
        assert forall p :: Unchanged(fs, step.fs, p);
      }
      PollStableOutput(fs, paths, outputs[1..]);
    }
  }

  /** The whole run builds the configuration from the initial targets only:
      whatever the poll does, the active configuration is the rendering of
      those targets. */
  lemma ComposeKeepsInitialConfig(fs: FileSystem, paths: Paths, nodeEnv: string, targets: seq<ProxyTarget>,
                                  render: SupergraphConfig -> string, first: Option<string>,
                                  ticks: seq<Option<string>>)
    requires DistinctPaths(paths)
    ensures var r := SupergraphCompose(fs, paths, nodeEnv, targets, render, first, ticks);
            paths.config in r.fs && r.fs[paths.config] == render(BuildConfig(targets))
  {
    var configured := CreateSupergraphConfig(fs, paths, targets, render).fs;
    var once := ComposeOnce(configured, paths, nodeEnv, first);
    assert Unchanged(configured, once.fs, paths.config);
    if once.Composed? && nodeEnv == Development {
      PollKeepsConfig(once.fs, paths, ticks);
    }
  }
}
