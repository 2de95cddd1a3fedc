/**
 * The per-stack layer presets of claudex/layer_configs.py: for each preset, which directories form
 * layers (with the imports each layer must not use), which sibling-layer imports are blocked, and
 * which file-name keywords a layer rejects. Python dicts keep insertion order, so every mapping is
 * an ordered table of unique keys.
 */
module LayerConfigs {
  import opened Wrappers
  import Detectors

  /** An insertion-ordered `dict[str, list[str]]`. */
  type Table = seq<(string, seq<string>)>

  datatype LayerPreset = LayerPreset(layerConfig: Table, siblingBlocks: Table, layerFileBlocks: Table)

  const GenericPreset := LayerPreset([], [], [])

  /** PRESETS, in declaration order. */
  const Presets: seq<(string, LayerPreset)> := [
    ("python-fastapi", LayerPreset(
      [("src/core/", ["sqlalchemy", "fastapi", "redis", "httpx", "requests", "aiohttp"]),
       ("src/db/", []), ("src/api/", []), ("src/worker/", [])],
      [("src/core/", ["from src.db", "from src.api", "from src.worker"]),
       ("src/db/", ["from src.api", "from src.worker"]),
       ("src/worker/", ["from src.api"])],
      [("src/core/", ["llm", "openai", "anthropic", "client"])])),
    ("python-django", LayerPreset([("apps/", [])], [], [])),
    ("nextjs", LayerPreset(
      [("src/lib/", ["react", "@/components"]), ("src/components/", ["next/server"])], [], [])),
    ("generic", GenericPreset)
  ]

  predicate IsPresetName(name: string) {
    exists j | 0 <= j < |Presets| :: Presets[j].0 == name
  }

  /** The first row of `Presets` named `name`. */
  function FindPreset(name: string, i: nat): (r: Option<LayerPreset>)
    requires i <= |Presets|
    ensures r.Some? ==> exists j | i <= j < |Presets| :: Presets[j] == (name, r.value)
    ensures r.None? ==> forall j | i <= j < |Presets| :: Presets[j].0 != name
    decreases |Presets| - i
  {
    if i == |Presets| then None
    else if Presets[i].0 == name then Some(Presets[i].1)
    else FindPreset(name, i + 1)
  }

  /** `get_preset`: the named preset, falling back to "generic" for unknown names. */
  function GetPreset(name: string): (r: LayerPreset)
    ensures IsPresetName(name) ==> exists j | 0 <= j < |Presets| :: Presets[j] == (name, r)
    ensures !IsPresetName(name) ==> r == GenericPreset
  {
    match FindPreset(name, 0)
    case Some(p) => p
    case None => GenericPreset
  }

  predicate HasKey(t: Table, k: string) {
    exists j | 0 <= j < |t| :: t[j].0 == k
  }

  /** Blocked-sibling and file-keyword rules are only given for directories that are layers. */
  predicate RulesNameLayers(p: LayerPreset) {
    (forall j | 0 <= j < |p.siblingBlocks| :: HasKey(p.layerConfig, p.siblingBlocks[j].0))
    && (forall j | 0 <= j < |p.layerFileBlocks| :: HasKey(p.layerConfig, p.layerFileBlocks[j].0))
  }

  /** Each of the four presets is found by its own name, and the generic one is empty throughout. */
  lemma KnownPresets()
    ensures GetPreset("python-fastapi") == Presets[0].1
    ensures GetPreset("python-django") == Presets[1].1
    ensures GetPreset("nextjs") == Presets[2].1
    ensures GetPreset("generic") == GenericPreset
    ensures GenericPreset.layerConfig == [] && GenericPreset.siblingBlocks == [] && GenericPreset.layerFileBlocks == []
  {
    assert FindPreset("python-fastapi", 0) == Some(Presets[0].1);
    assert FindPreset("python-django", 0) == Some(Presets[1].1);
    assert FindPreset("nextjs", 0) == Some(Presets[2].1);
  }

  /** Whatever name is asked for, the preset returned has rules only for its own layers. */
  lemma {:induction false} EveryPresetRulesNameLayers(name: string)
    ensures RulesNameLayers(GetPreset(name))
  {
    var lc := Presets[0].1.layerConfig;
    assert HasKey(lc, "src/core/") by { assert lc[0].0 == "src/core/"; }
    assert HasKey(lc, "src/db/") by { assert lc[1].0 == "src/db/"; }
    assert HasKey(lc, "src/worker/") by { assert lc[3].0 == "src/worker/"; }
    assert forall j | 0 <= j < |Presets| :: RulesNameLayers(Presets[j].1);
  }

  /** Every preset detection can select has a layer preset of that name. */
  lemma {:induction false} DetectedPresetsExist(framework: Option<string>)
    ensures IsPresetName(Detectors.PresetFor(framework))
  {
    Detectors.PresetSelectionRange(framework);
    var p := Detectors.PresetFor(framework);
    assert Presets[0].0 == "python-fastapi" && Presets[1].0 == "python-django";
    assert Presets[2].0 == "nextjs" && Presets[3].0 == "generic";
  }
}
