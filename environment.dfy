/** The environment probe of `carthage`: looking up a process environment
    variable, and deciding from `TERM` whether the terminal is "dumb". The
    process environment is passed in as a map from names to values. */
module Environment {
  import opened Wrappers
  import opened CarthageErrors

  type Env = map<string, string>

  /** `getEnvironmentVariable`: the value when the variable is set (even to the
      empty string), otherwise `MissingEnvironmentVariable` naming exactly the
      variable that was asked for. */
  function GetEnvironmentVariable(env: Env, variable: string): (r: Result<string, CarthageError>)
    ensures r.Success? <==> variable in env
    ensures r.Success? ==> r.value == env[variable]
    ensures r.Failure? ==> r.error == MissingEnvironmentVariable(variable)
  {
    if variable in env then Success(env[variable])
    else Failure(MissingEnvironmentVariable(variable))
  }

  /** `Terminal.terminalType`: the lookup of `TERM` with its failure dropped. */
  function TerminalType(env: Env): (t: Option<string>)
    ensures t == if "TERM" in env then Some(env["TERM"]) else None
  {
    GetEnvironmentVariable(env, "TERM").ToOption()
  }

  // ----- caseInsensitiveCompare, restricted to ASCII case folding -----

  /** The three answers of a string comparison (`NSComparisonResult`). */
  datatype Ordering = OrderedAscending | OrderedSame | OrderedDescending {
    function Flip(): Ordering {
      match this
      case OrderedAscending => OrderedDescending
      case OrderedSame => OrderedSame
      case OrderedDescending => OrderedAscending
    }
  }

  function LowerChar(c: char): (d: char)
    ensures 'A' <= c <= 'Z' ==> d as int == c as int + 32
    ensures !('A' <= c <= 'Z') ==> d == c
  {
    if 'A' <= c <= 'Z' then (c as int + 32) as char else c
  }

  function Lowercased(s: string): (r: string)
    ensures |r| == |s|
    ensures forall i :: 0 <= i < |s| ==> r[i] == LowerChar(s[i])
  {
    seq(|s|, i requires 0 <= i < |s| => LowerChar(s[i]))
  }

  /** Lexicographic comparison by code point. */
  function Compare(a: string, b: string): Ordering
  {
    if a == [] && b == [] then OrderedSame
    else if a == [] then OrderedAscending
    else if b == [] then OrderedDescending
    else if a[0] < b[0] then OrderedAscending
    else if b[0] < a[0] then OrderedDescending
    else Compare(a[1..], b[1..])
  }

  /** `caseInsensitiveCompare`: compares the lower-cased strings. */
  function CaseInsensitiveCompare(a: string, b: string): Ordering
  {
    Compare(Lowercased(a), Lowercased(b))
  }

  /** Two strings compare as the same exactly when they are equal. */
  lemma {:induction false} CompareSameIffEqual(a: string, b: string)
    ensures Compare(a, b) == OrderedSame <==> a == b
  {
    if a != [] && b != [] && a[0] == b[0] {
      CompareSameIffEqual(a[1..], b[1..]);
      assert a == [a[0]] + a[1..] && b == [b[0]] + b[1..];
    }
  }

  /** Swapping the operands flips the answer. */
  lemma {:induction false} CompareFlip(a: string, b: string)
    ensures Compare(b, a) == Compare(a, b).Flip()
  {
    if a != [] && b != [] && a[0] == b[0] {
      CompareFlip(a[1..], b[1..]);
    }
  }

  lemma CaseInsensitiveSameIff(a: string, b: string)
    ensures CaseInsensitiveCompare(a, b) == OrderedSame <==> Lowercased(a) == Lowercased(b)
  {
    CompareSameIffEqual(Lowercased(a), Lowercased(b));
  }

  // ----- Terminal.isDumb -----

  /** `Terminal.isDumb`: `TERM` compared with "dumb" ignoring case, with a
      missing `TERM` giving false. */
  function IsDumb(env: Env): (dumb: bool)
    ensures dumb <==> "TERM" in env && Lowercased(env["TERM"]) == "dumb"
  {
    match TerminalType(env)
    case Some(t) =>
      CaseInsensitiveSameIff(t, "dumb");
      assert Lowercased("dumb") == "dumb";
      CaseInsensitiveCompare(t, "dumb") == OrderedSame
    case None => false
  }

  /** The values of `TERM` that make the terminal dumb are exactly the sixteen
      spellings of "dumb" with each letter in either case. */
  lemma DumbSpellings(env: Env)
    ensures IsDumb(env) <==>
      "TERM" in env && |env["TERM"]| == 4 &&
      forall i :: 0 <= i < 4 ==> env["TERM"][i] == "dumb"[i] || env["TERM"][i] == "DUMB"[i]
  {
    if "TERM" in env {
      var t := env["TERM"];
      if |t| == 4 && forall i :: 0 <= i < 4 ==> t[i] == "dumb"[i] || t[i] == "DUMB"[i] {
        assert Lowercased(t) == "dumb";
      }
    }
  }

  lemma IsDumbExamples()
    ensures IsDumb(map["TERM" := "dumb"])
    ensures IsDumb(map["TERM" := "DUMB"])
    ensures IsDumb(map["TERM" := "Dumb"])
    ensures !IsDumb(map["TERM" := "xterm-256color"])
    ensures !IsDumb(map["TERM" := ""])
    ensures !IsDumb(map[])
    ensures GetEnvironmentVariable(map[], "TERM") == Failure(MissingEnvironmentVariable("TERM"))
    ensures GetEnvironmentVariable(map["TERM" := ""], "TERM") == Success("")
  {
    DumbSpellings(map["TERM" := "dumb"]);
    DumbSpellings(map["TERM" := "DUMB"]);
    DumbSpellings(map["TERM" := "Dumb"]);
    DumbSpellings(map["TERM" := "xterm-256color"]);
  }
}
