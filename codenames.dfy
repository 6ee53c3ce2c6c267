/** One run of the generator (`main`): load both word lists, stop when either is empty, load
    the used names when a log is given, draw a name and decide whether to append it to the
    log. What the outside world provides (files, the two remote lists) is a parameter; printing
    and writing the log are left to the caller, which receives a `Report`. */
module CodeNames {
  import opened Common
  import opened Text
  import opened WordList
  import opened UsedNames
  import opened Sampler

  /** What the run can observe: the result of reading each path (a path not in `files` is
      missing) and the lists the two remote fetches produced (empty when a fetch failed). */
  datatype World = World(files: map<string, FileRead>, fetchedAdjectives: seq<string>, fetchedNouns: seq<string>)
  {
    function Read(path: Option<string>): FileRead
    {
      if path.Some? && path.value in files then files[path.value] else NotFound
    }
  }

  /** How a run ends. `Generated` carries the printed name and the log path it is to be
      appended to, if an append was requested. `Crashed` is an exception escaping `main`. */
  datatype Report =
    | EmptyWordList
    | Exhausted
    | Generated(codeName: string, appendTo: Option<string>)
    | Crashed

  function AdjectiveList(world: World, adjectiveFile: Option<string>): Result<seq<string>>
  {
    GetWords(adjectiveFile, world.Read(adjectiveFile), world.fetchedAdjectives)
  }

  function NounList(world: World, nounFile: Option<string>): Result<seq<string>>
  {
    GetWords(nounFile, world.Read(nounFile), world.fetchedNouns)
  }

  /** The exclusion sets the run starts from: empty unless a log path is given. */
  function UsedBefore(world: World, usedFile: Option<string>): Result<(set<string>, set<string>)>
  {
    if Given(usedFile) then Exclusions(world.Read(usedFile)) else Ok(({}, {}))
  }

  /** Both lists loaded and neither is empty, so the run goes on past the early stop. */
  predicate Proceeds(adjectives: Result<seq<string>>, nouns: Result<seq<string>>)
  {
    adjectives.Ok? && nouns.Ok? && adjectives.value != [] && nouns.value != []
  }

  /** `main`. */
  method Run(world: World, adjectiveFile: Option<string>, nounFile: Option<string>,
             usedFile: Option<string>, append: bool) returns (report: Report)
    ensures var adjectives, nouns := AdjectiveList(world, adjectiveFile), NounList(world, nounFile);
      report.Crashed? <==>
        adjectives.Crash? || (adjectives.Ok? && nouns.Crash?) ||
        (Proceeds(adjectives, nouns) && UsedBefore(world, usedFile).Crash?)
    ensures var adjectives, nouns := AdjectiveList(world, adjectiveFile), NounList(world, nounFile);
      report.EmptyWordList? <==>
        adjectives.Ok? && nouns.Ok? && (adjectives.value == [] || nouns.value == [])
    ensures var adjectives, nouns := AdjectiveList(world, adjectiveFile), NounList(world, nounFile);
      var used := UsedBefore(world, usedFile);
      report.Exhausted? <==>
        Proceeds(adjectives, nouns) && used.Ok? &&
        (AllUsed(adjectives.value, used.value.0) || AllUsed(nouns.value, used.value.1))
    ensures var adjectives, nouns := AdjectiveList(world, adjectiveFile), NounList(world, nounFile);
      var used := UsedBefore(world, usedFile);
      report.Generated? ==>
        Proceeds(adjectives, nouns) && used.Ok? &&
        exists adj, noun ::
          && adj in adjectives.value && Lower(adj) !in used.value.0
          && noun in nouns.value && Lower(noun) !in used.value.1
          && report.codeName == Upper(adj + " " + noun)
    ensures report.Generated? ==>
      report.appendTo == (if append && Given(usedFile) then usedFile else None)
  {
    var adjectives := GetWords(adjectiveFile, world.Read(adjectiveFile), world.fetchedAdjectives);
    if adjectives.Crash? {
      return Crashed;
    }
    var nouns := GetWords(nounFile, world.Read(nounFile), world.fetchedNouns);
    if nouns.Crash? {
      return Crashed;
    }
    if adjectives.value == [] || nouns.value == [] {
      return EmptyWordList;
    }

    var usedAdjectives: set<string>, usedNouns: set<string> := {}, {};
    if Given(usedFile) {
      var loaded := LoadUsedCodeNames(world.Read(usedFile));
      if loaded.Crash? {
        return Crashed;
      }
      usedAdjectives, usedNouns := loaded.value.0, loaded.value.1;
    }

    var used := new UsedSets(usedAdjectives, usedNouns);
    var codeName := GenerateUniqueCodeName(adjectives.value, nouns.value, used);
    if codeName.Some? && codeName.value != "" {
      report := Generated(codeName.value, if append && Given(usedFile) then usedFile else None);
    } else {
      report := Exhausted;
    }
  }
}
