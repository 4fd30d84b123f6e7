/** `carthage archive`: find the built copies of a framework, one candidate per
    supported platform, and hand the ones that exist to the zip step. The
    filesystem is a set of existing paths, the zip step a function parameter,
    and the console output an event log. */
module Archive {
  import opened Wrappers
  import opened CarthageErrors

  /** A build target; only the directory its builds are placed in matters here. */
  datatype Platform = Platform(relativePath: string)

  /** What the command reports or does, in order. `ZipInvoked` stands for the
      call to the zip step; `Found` and `Created` are the two console lines. */
  datatype Event =
    | Found(path: string)
    | ZipInvoked(output: string, paths: seq<string>)
    | Created(path: string)

  /** The decision taken before packaging: stop with an error, or zip. */
  datatype ArchivePlan =
    | Abort(error: CarthageError)
    | Zip(output: string, paths: seq<string>)

  /** The whole run: its result and everything it reported, in order. */
  datatype Execution = Execution(result: Result<(), CarthageError>, log: seq<Event>)

  type ZipStep = (string, seq<string>) -> Outcome<CarthageError>

  // ----- Candidate paths -----

  /** `stringByAppendingPathComponent`, as plain concatenation with "/". */
  function AppendingPathComponent(path: string, component: string): string
  {
    path + "/" + component
  }

  /** `stringByAppendingPathExtension`, as plain concatenation with ".". */
  function AppendingPathExtension(path: string, ext: string): string
  {
    path + "." + ext
  }

  /** Where a platform's build of the framework is expected. */
  function CandidatePath(platform: Platform, frameworkName: string): (p: string)
    ensures p == platform.relativePath + "/" + frameworkName + ".framework"
  {
    AppendingPathExtension(AppendingPathComponent(platform.relativePath, frameworkName), "framework")
  }

  /** The `map` over the supported platforms: one candidate per platform. */
  function Candidates(platforms: seq<Platform>, frameworkName: string): (cs: seq<string>)
    ensures |cs| == |platforms|
    ensures forall i :: 0 <= i < |platforms| ==> cs[i] == CandidatePath(platforms[i], frameworkName)
  {
    if platforms == [] then []
    else [CandidatePath(platforms[0], frameworkName)] + Candidates(platforms[1..], frameworkName)
  }

  // ----- The existence filter and the accumulation -----

  /** The `filter` by `fileExistsAtPath`, preserving order. */
  function ExistingPaths(candidates: seq<string>, existing: set<string>): seq<string>
  {
    if candidates == [] then []
    else if candidates[0] in existing then [candidates[0]] + ExistingPaths(candidates[1..], existing)
    else ExistingPaths(candidates[1..], existing)
  }

  /** `reduce(initial: acc) { $0 + [$1] }`: append every element in turn. */
  function Collect(acc: seq<string>, xs: seq<string>): seq<string>
    decreases |xs|
  {
    if xs == [] then acc else Collect(acc + [xs[0]], xs[1..])
  }

  /** The indices, from `from` on, of the candidates the filter keeps. */
  function KeptIndices(candidates: seq<string>, existing: set<string>, from: nat): seq<nat>
    requires from <= |candidates|
    decreases |candidates| - from
  {
    if from == |candidates| then []
    else if candidates[from] in existing then [from] + KeptIndices(candidates, existing, from + 1)
    else KeptIndices(candidates, existing, from + 1)
  }

  /** The accumulation rebuilds the stream unchanged after the initial value. */
  lemma {:induction false} CollectAppends(acc: seq<string>, xs: seq<string>)
    ensures Collect(acc, xs) == acc + xs
    decreases |xs|
  {
    if xs != [] {
      CollectAppends(acc + [xs[0]], xs[1..]);
      assert acc + [xs[0]] + xs[1..] == acc + xs;
    }
  }

  /** A path is kept exactly when it is a candidate and it exists. */
  lemma {:induction false} ExistingPathsExact(candidates: seq<string>, existing: set<string>)
    ensures forall p :: p in ExistingPaths(candidates, existing) <==> p in candidates && p in existing
  {
    if candidates != [] {
      ExistingPathsExact(candidates[1..], existing);
      assert candidates == [candidates[0]] + candidates[1..];
    }
  }

  /** The filter as a strictly increasing choice of positions: the kept paths are
      the candidates at those positions, in that order, and a position is chosen
      exactly when its candidate exists. */
  lemma {:induction false} ExistingPathsPositions(candidates: seq<string>, existing: set<string>, from: nat)
    requires from <= |candidates|
    decreases |candidates| - from
    ensures var kept, idx := ExistingPaths(candidates[from..], existing), KeptIndices(candidates, existing, from);
      && |idx| == |kept|
      && (forall k :: 0 <= k < |idx| ==> from <= idx[k] < |candidates| && candidates[idx[k]] == kept[k])
      && (forall k, l :: 0 <= k < l < |idx| ==> idx[k] < idx[l])
      && (forall j :: from <= j < |candidates| ==> (j in idx <==> candidates[j] in existing))
  {
    if from < |candidates| {
      ExistingPathsPositions(candidates, existing, from + 1);
      assert candidates[from..][1..] == candidates[from + 1..];
    }
  }

  /** The order guarantee for the whole candidate list. */
  lemma OrderPreserved(candidates: seq<string>, existing: set<string>)
    ensures var kept, idx := ExistingPaths(candidates, existing), KeptIndices(candidates, existing, 0);
      && |idx| == |kept|
      && (forall k :: 0 <= k < |idx| ==> idx[k] < |candidates| && candidates[idx[k]] == kept[k])
      && (forall k, l :: 0 <= k < l < |idx| ==> idx[k] < idx[l])
      && (forall j :: 0 <= j < |candidates| ==> (j in idx <==> candidates[j] in existing))
  {
    ExistingPathsPositions(candidates, existing, 0);
    assert candidates[0..] == candidates;
  }

  // ----- The pipeline -----

  /** The paths handed on after the filter and the `reduce`. */
  function Discovered(platforms: seq<Platform>, frameworkName: string, existing: set<string>): seq<string>
  {
    Collect([], ExistingPaths(Candidates(platforms, frameworkName), existing))
  }

  /** Some platform's candidate exists. */
  ghost predicate AnyBuilt(platforms: seq<Platform>, frameworkName: string, existing: set<string>)
  {
    exists i :: 0 <= i < |platforms| && CandidatePath(platforms[i], frameworkName) in existing
  }

  /** The error text when no copy was found. */
  function NotFoundMessage(frameworkName: string): string
  {
    "Could not find any copies of " + frameworkName + ".framework"
      + ". Make sure you're in the project\U{2019}s root and that the framework has already been built."
  }

  /** `sub` occurs somewhere in `s`. */
  ghost predicate Contains(s: string, sub: string)
  {
    exists i :: 0 <= i <= |s| && sub <= s[i..]
  }

  /** The default output path is the framework name with ".framework.zip". */
  function OutputPath(frameworkName: string, outputPath: string): (out: string)
    ensures outputPath == "" ==> out == frameworkName + ".framework.zip"
    ensures outputPath != "" ==> out == outputPath
    ensures out != ""
  {
    if outputPath == "" then frameworkName + ".framework.zip" else outputPath
  }

  /** The branch on emptiness: an error, or the zip step's two arguments. */
  function Plan(platforms: seq<Platform>, frameworkName: string, outputPath: string, existing: set<string>): ArchivePlan
  {
    var paths := Discovered(platforms, frameworkName, existing);
    if paths == [] then Abort(InvalidArgument(NotFoundMessage(frameworkName)))
    else Zip(OutputPath(frameworkName, outputPath), paths)
  }

  /** One "Found" line per kept path, in order. */
  function FoundEvents(paths: seq<string>): (events: seq<Event>)
    ensures |events| == |paths|
    ensures forall k :: 0 <= k < |paths| ==> events[k] == Found(paths[k])
  {
    if paths == [] then [] else [Found(paths[0])] + FoundEvents(paths[1..])
  }

  /** `ArchiveCommand.run` after option parsing: "Found" lines while filtering,
      then either the error or the zip step, and "Created" once it completes. */
  function Run(platforms: seq<Platform>, frameworkName: string, outputPath: string,
               existing: set<string>, zip: ZipStep): Execution
  {
    var found := FoundEvents(ExistingPaths(Candidates(platforms, frameworkName), existing));
    match Plan(platforms, frameworkName, outputPath, existing)
    case Abort(e) => Execution(Failure(e), found)
    case Zip(out, paths) =>
      match zip(out, paths)
      case Pass => Execution(Success(()), found + [ZipInvoked(out, paths)] + [Created(out)])
      case Fail(e) => Execution(Failure(e), found + [ZipInvoked(out, paths)])
  }

  // ----- Properties of the pipeline -----

  /** The discovered paths are the filter's output, unchanged by the `reduce`. */
  lemma DiscoveredIsFiltered(platforms: seq<Platform>, frameworkName: string, existing: set<string>)
    ensures Discovered(platforms, frameworkName, existing)
         == ExistingPaths(Candidates(platforms, frameworkName), existing)
  {
    CollectAppends([], ExistingPaths(Candidates(platforms, frameworkName), existing));
  }

  /** A discovered path is a path of some platform's candidate that exists, and
      every existing candidate is discovered. */
  lemma DiscoveredExact(platforms: seq<Platform>, frameworkName: string, existing: set<string>, p: string)
    ensures p in Discovered(platforms, frameworkName, existing) <==>
      p in existing && exists i :: 0 <= i < |platforms| && p == CandidatePath(platforms[i], frameworkName)
  {
    DiscoveredIsFiltered(platforms, frameworkName, existing);
    ExistingPathsExact(Candidates(platforms, frameworkName), existing);
  }

  /** Nothing is discovered exactly when no platform's candidate exists. */
  lemma DiscoveredEmptyIff(platforms: seq<Platform>, frameworkName: string, existing: set<string>)
    ensures Discovered(platforms, frameworkName, existing) == [] <==> !AnyBuilt(platforms, frameworkName, existing)
  {
    var d := Discovered(platforms, frameworkName, existing);
    if AnyBuilt(platforms, frameworkName, existing) {
      var i :| 0 <= i < |platforms| && CandidatePath(platforms[i], frameworkName) in existing;
      DiscoveredExact(platforms, frameworkName, existing, CandidatePath(platforms[i], frameworkName));
    } else if d != [] {
      DiscoveredExact(platforms, frameworkName, existing, d[0]);
    }
  }

  /** The plan zips exactly when some candidate exists; the zip step then gets
      the resolved output path and exactly the existing candidates, never none. */
  lemma PlanSpec(platforms: seq<Platform>, frameworkName: string, outputPath: string, existing: set<string>)
    ensures var plan := Plan(platforms, frameworkName, outputPath, existing);
      && (plan.Zip? <==> AnyBuilt(platforms, frameworkName, existing))
      && (plan.Abort? ==> plan.error == InvalidArgument(NotFoundMessage(frameworkName)))
      && (plan.Zip? ==>
           && plan.output == OutputPath(frameworkName, outputPath)
           && plan.paths != []
           && plan.paths == ExistingPaths(Candidates(platforms, frameworkName), existing)
           && forall p :: p in plan.paths <==> p in Candidates(platforms, frameworkName) && p in existing)
  {
    DiscoveredEmptyIff(platforms, frameworkName, existing);
    DiscoveredIsFiltered(platforms, frameworkName, existing);
    ExistingPathsExact(Candidates(platforms, frameworkName), existing);
  }

  /** The error text names the framework, followed by ".framework". */
  lemma NotFoundMessageNamesFramework(frameworkName: string)
    ensures Contains(NotFoundMessage(frameworkName), frameworkName + ".framework")
  {
    var m := NotFoundMessage(frameworkName);
    var prefix := "Could not find any copies of ";
    var rest := ". Make sure you're in the project\U{2019}s root and that the framework has already been built.";
    assert m == prefix + (frameworkName + ".framework" + rest);
    assert m[|prefix|..] == frameworkName + ".framework" + rest;
  }

  /** With no existing candidate the run fails with `InvalidArgument`, reports
      nothing and never calls the zip step. */
  lemma NothingBuiltFails(platforms: seq<Platform>, frameworkName: string, outputPath: string,
                          existing: set<string>, zip: ZipStep)
    requires !AnyBuilt(platforms, frameworkName, existing)
    ensures var x := Run(platforms, frameworkName, outputPath, existing, zip);
      && x.result == Failure(InvalidArgument(NotFoundMessage(frameworkName)))
      && x.log == []
  {
    PlanSpec(platforms, frameworkName, outputPath, existing);
    DiscoveredIsFiltered(platforms, frameworkName, existing);
  }

  /** The log opens with one "Found" per kept path, in platform order; then, and
      only when something was found, one call of the zip step with the resolved
      output path and exactly those paths; then "Created" exactly when the zip
      step completed. */
  lemma RunLog(platforms: seq<Platform>, frameworkName: string, outputPath: string,
               existing: set<string>, zip: ZipStep)
    ensures var x, paths, out :=
              Run(platforms, frameworkName, outputPath, existing, zip),
              ExistingPaths(Candidates(platforms, frameworkName), existing),
              OutputPath(frameworkName, outputPath);
      && |paths| <= |x.log|
      && (forall k :: 0 <= k < |paths| ==> x.log[k] == Found(paths[k]))
      && (paths == [] ==> |x.log| == |paths|)
      && (paths != [] ==>
            && |paths| < |x.log|
            && x.log[|paths|] == ZipInvoked(out, paths)
            && (zip(out, paths).Pass? ==> |x.log| == |paths| + 2 && x.log[|paths| + 1] == Created(out))
            && (zip(out, paths).Fail? ==> |x.log| == |paths| + 1))
  {
    var paths := ExistingPaths(Candidates(platforms, frameworkName), existing);
    var found := FoundEvents(paths);
    var out := OutputPath(frameworkName, outputPath);
    var x := Run(platforms, frameworkName, outputPath, existing, zip);
    PlanSpec(platforms, frameworkName, outputPath, existing);
    DiscoveredIsFiltered(platforms, frameworkName, existing);
    if paths == [] {
      assert x.log == found;
    } else if zip(out, paths).Pass? {
      assert x.log == found + [ZipInvoked(out, paths)] + [Created(out)];
    } else {
      assert x.log == found + [ZipInvoked(out, paths)];
    }
  }

  /** "Found" lines match the kept paths one for one, and no other event is one. */
  lemma FoundOnlyForKept(platforms: seq<Platform>, frameworkName: string, outputPath: string,
                         existing: set<string>, zip: ZipStep)
    ensures var x, paths :=
              Run(platforms, frameworkName, outputPath, existing, zip),
              ExistingPaths(Candidates(platforms, frameworkName), existing);
      forall k :: 0 <= k < |x.log| ==> (x.log[k].Found? <==> k < |paths|)
  {
    RunLog(platforms, frameworkName, outputPath, existing, zip);
  }

  /** "Created" appears only right after the zip step was called and completed,
      and it names the output path. */
  lemma CreatedOnlyAfterZip(platforms: seq<Platform>, frameworkName: string, outputPath: string,
                            existing: set<string>, zip: ZipStep)
    ensures var x, out :=
              Run(platforms, frameworkName, outputPath, existing, zip),
              OutputPath(frameworkName, outputPath);
      forall k :: 0 <= k < |x.log| && x.log[k].Created? ==>
        && k > 0
        && x.log[k - 1].ZipInvoked?
        && x.log[k - 1].output == out
        && x.log[k].path == out
        && zip(out, x.log[k - 1].paths) == Pass
  {
    RunLog(platforms, frameworkName, outputPath, existing, zip);
    FoundOnlyForKept(platforms, frameworkName, outputPath, existing, zip);
  }

  /** The run succeeds exactly when some candidate exists and the zip step
      completes; a zip failure is the run's error unchanged; "Created" is
      reported exactly on success. */
  lemma RunResult(platforms: seq<Platform>, frameworkName: string, outputPath: string,
                  existing: set<string>, zip: ZipStep)
    ensures var x, paths, out :=
              Run(platforms, frameworkName, outputPath, existing, zip),
              ExistingPaths(Candidates(platforms, frameworkName), existing),
              OutputPath(frameworkName, outputPath);
      && (x.result.Success? <==> AnyBuilt(platforms, frameworkName, existing) && zip(out, paths).Pass?)
      && (AnyBuilt(platforms, frameworkName, existing) && zip(out, paths).Fail? ==>
            x.result == Failure(zip(out, paths).error))
      && ((exists k :: 0 <= k < |x.log| && x.log[k].Created?) <==> x.result.Success?)
  {
    var paths := ExistingPaths(Candidates(platforms, frameworkName), existing);
    var out := OutputPath(frameworkName, outputPath);
    var x := Run(platforms, frameworkName, outputPath, existing, zip);
    PlanSpec(platforms, frameworkName, outputPath, existing);
    RunLog(platforms, frameworkName, outputPath, existing, zip);
    if paths != [] && zip(out, paths).Pass? {
      assert x.log[|paths| + 1].Created?;
    } else {
      forall k | 0 <= k < |x.log| ensures !x.log[k].Created? {
        if k < |paths| {
          assert x.log[k] == Found(paths[k]);
        } else {
          assert x.log[k] == ZipInvoked(out, paths);
        }
      }
    }
  }

  /** The zip step is called at most once, and never with no paths. */
  lemma ZipNeverEmpty(platforms: seq<Platform>, frameworkName: string, outputPath: string,
                      existing: set<string>, zip: ZipStep)
    ensures var x := Run(platforms, frameworkName, outputPath, existing, zip);
      forall k :: 0 <= k < |x.log| && x.log[k].ZipInvoked? ==>
        x.log[k].paths != [] && forall l :: 0 <= l < |x.log| && l != k ==> !x.log[l].ZipInvoked?
  {
    RunLog(platforms, frameworkName, outputPath, existing, zip);
    FoundOnlyForKept(platforms, frameworkName, outputPath, existing, zip);
  }

  // ----- The two end-to-end cases -----

  lemma MacOnlyExample(zip: ZipStep)
    requires zip("Foo.framework.zip", ["build/Mac/Foo.framework"]) == Pass
    ensures var x := Run([Platform("build/Mac"), Platform("build/iOS")], "Foo", "",
                         {"build/Mac/Foo.framework"}, zip);
      && x.result == Success(())
      && x.log == [Found("build/Mac/Foo.framework"),
                   ZipInvoked("Foo.framework.zip", ["build/Mac/Foo.framework"]),
                   Created("Foo.framework.zip")]
  {
    var ps := [Platform("build/Mac"), Platform("build/iOS")];
    var e := {"build/Mac/Foo.framework"};
    var mac := "build/Mac/Foo.framework";
    var cs := Candidates(ps, "Foo");
    assert CandidatePath(ps[0], "Foo") == mac;
    assert CandidatePath(ps[1], "Foo") == "build/iOS/Foo.framework";
    assert cs == [mac, "build/iOS/Foo.framework"];
    assert "build/iOS/Foo.framework" !in e;
    assert cs[1..][1..] == [];
    assert ExistingPaths(cs[1..], e) == [];
    var paths := ExistingPaths(cs, e);
    assert paths == [mac];
    assert FoundEvents(paths) == [Found(mac)];
    DiscoveredIsFiltered(ps, "Foo", e);
    assert OutputPath("Foo", "") == "Foo.framework.zip";
    assert Plan(ps, "Foo", "", e) == Zip("Foo.framework.zip", paths);
    assert Run(ps, "Foo", "", e, zip)
        == Execution(Success(()), FoundEvents(paths) + [ZipInvoked("Foo.framework.zip", paths)] + [Created("Foo.framework.zip")]);
  }

  lemma NoneBuiltExample(zip: ZipStep)
    ensures var x := Run([Platform("build/Mac"), Platform("build/iOS")], "Foo", "/tmp/out.zip", {}, zip);
      && x.result == Failure(InvalidArgument(NotFoundMessage("Foo")))
      && x.log == []
  {
    NothingBuiltFails([Platform("build/Mac"), Platform("build/iOS")], "Foo", "/tmp/out.zip", {}, zip);
  }
}
