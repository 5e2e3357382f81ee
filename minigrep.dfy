/** The `minigrep` line-search library: argument validation (`Config::build_v0`,
    `Config::build`), the case-sensitive and case-insensitive line filters in
    their loop and iterator forms, and the dispatch in `run`. */
module Minigrep {

  import opened Wrappers
  import Seqs
  import opened Text

  /** `Config`; `ignore_case` comes from the environment and is an input here. */
  datatype Config = Config(query: string, filePath: string, ignoreCase: bool)

  // ----- argument validation -----

  /** `Config::build_v0`: index into the argument slice. */
  function BuildV0(args: seq<string>, ignoreCase: bool): (r: Result<Config, string>)
    ensures r.Err? <==> |args| < 3
    ensures r.Err? ==> r.error == "not enough arguments"
    ensures r.Ok? ==> r.value.query == args[1] && r.value.filePath == args[2] && r.value.ignoreCase == ignoreCase
  {
    if |args| < 3 then Err("not enough arguments")
    else Ok(Config(args[1], args[2], ignoreCase))
  }

  /** An argument iterator such as `env::args()`: `next` hands out the
      remaining arguments one at a time. */
  class ArgIter {
    var remaining: seq<string>

    constructor (args: seq<string>)
      ensures remaining == args
    {
      remaining := args;
    }

    method Next() returns (item: Option<string>)
      modifies this
      ensures old(remaining) == [] ==> item == None && remaining == []
      ensures old(remaining) != [] ==> item == Some(old(remaining)[0]) && remaining == old(remaining)[1..]
    {
      if remaining == [] {
        item := None;
      } else {
        item := Some(remaining[0]);
        remaining := remaining[1..];
      }
    }
  }

  /** What `Config::build` returns for the argument list `args`. */
  function BuildResult(args: seq<string>, ignoreCase: bool): Result<Config, string>
  {
    if |args| < 2 then Err("Didn't get a query string.")
    else if |args| < 3 then Err("Didn't get a file path")
    else Ok(Config(args[1], args[2], ignoreCase))
  }

  /** `Config::build`: skip the program name, then take the query and the file
      path with `next`; at most three arguments are consumed. */
  method Build(args: ArgIter, ignoreCase: bool) returns (r: Result<Config, string>)
    modifies args
    ensures r == BuildResult(old(args.remaining), ignoreCase)
    ensures args.remaining == old(args.remaining)[if |old(args.remaining)| < 3 then |old(args.remaining)| else 3..]
  {
    var _ := args.Next();
    var query := args.Next();
    if query.None? {
      return Err("Didn't get a query string.");
    }
    var filePath := args.Next();
    if filePath.None? {
      return Err("Didn't get a file path");
    }
    r := Ok(Config(query.value, filePath.value, ignoreCase));
  }

  /** Both validators accept exactly the lists with at least three arguments and
      then build the same configuration; arguments past the third are ignored. */
  lemma BuildAgreesWithBuildV0(args: seq<string>, extra: seq<string>, ignoreCase: bool)
    ensures BuildResult(args, ignoreCase).Ok? <==> BuildV0(args, ignoreCase).Ok?
    ensures BuildResult(args, ignoreCase).Ok? ==> BuildResult(args, ignoreCase) == BuildV0(args, ignoreCase)
    ensures |args| >= 3 ==> BuildResult(args + extra, ignoreCase) == BuildResult(args, ignoreCase)
  {
    if |args| >= 3 {
      assert (args + extra)[1] == args[1] && (args + extra)[2] == args[2];
    }
  }

  /** The two error messages of `Config::build`, one per missing argument. */
  lemma BuildErrors(args: seq<string>, ignoreCase: bool)
    ensures BuildResult(args, ignoreCase) == Err("Didn't get a query string.") <==> |args| <= 1
    ensures BuildResult(args, ignoreCase) == Err("Didn't get a file path") <==> |args| == 2
  {
  }

  // ----- searching -----

  /** The line filter of `search`: `line.contains(query)`. */
  function Matches(query: string): string -> bool
  {
    line => Contains(line, query)
  }

  /** The line filter of `isearch`: compare the lowercased line with the
      lowercased query. */
  function MatchesIgnoringCase(query: string): string -> bool
  {
    line => ContainsIgnoringCase(line, query)
  }

  /** `line.to_lowercase().contains(&query.to_lowercase())` */
  predicate ContainsIgnoringCase(line: string, query: string)
  {
    Contains(Lower(line), Lower(query))
  }

  /** `search`: `contents.lines().filter(..).collect()`. */
  function Search(query: string, contents: string): seq<string>
  {
    Seqs.Filter(Matches(query), Lines(contents))
  }

  /** `isearch`: the same pipeline with the case-insensitive filter. */
  function ISearch(query: string, contents: string): seq<string>
  {
    Seqs.Filter(MatchesIgnoringCase(query), Lines(contents))
  }

  /** `search` keeps exactly the lines containing the query, each as often as it
      occurs in the input, in their original order and adding nothing. */
  lemma SearchSpec(query: string, contents: string)
    ensures forall l :: l in Search(query, contents) <==> l in Lines(contents) && Contains(l, query)
    ensures forall l :: (Seqs.Count(Search(query, contents), l) ==
      if Contains(l, query) then Seqs.Count(Lines(contents), l) else 0)
    ensures Seqs.IsSubsequence(Search(query, contents), Lines(contents))
  {
    var p, ls := Matches(query), Lines(contents);
    forall l ensures l in Seqs.Filter(p, ls) <==> l in ls && p(l) {
      Seqs.FilterMembership(p, ls, l);
    }
    forall l ensures Seqs.Count(Seqs.Filter(p, ls), l) == if p(l) then Seqs.Count(ls, l) else 0 {
      Seqs.FilterCount(p, ls, l);
    }
    Seqs.FilterIsSubsequence(p, ls);
  }

  /** `isearch` keeps exactly the lines whose lowercase form contains the
      lowercased query, in order, adding nothing. */
  lemma ISearchSpec(query: string, contents: string)
    ensures forall l :: l in ISearch(query, contents) <==> l in Lines(contents) && Contains(Lower(l), Lower(query))
    ensures forall l :: (Seqs.Count(ISearch(query, contents), l) ==
      if Contains(Lower(l), Lower(query)) then Seqs.Count(Lines(contents), l) else 0)
    ensures Seqs.IsSubsequence(ISearch(query, contents), Lines(contents))
  {
    var p, ls := MatchesIgnoringCase(query), Lines(contents);
    forall l ensures l in Seqs.Filter(p, ls) <==> l in ls && p(l) {
      Seqs.FilterMembership(p, ls, l);
    }
    forall l ensures Seqs.Count(Seqs.Filter(p, ls), l) == if p(l) then Seqs.Count(ls, l) else 0 {
      Seqs.FilterCount(p, ls, l);
    }
    Seqs.FilterIsSubsequence(p, ls);
  }

  /** A query without upper-case letters: the case-insensitive search finds at
      least the lines the case-sensitive one finds. */
  lemma SearchWithinISearch(query: string, contents: string, l: string)
    requires Lower(query) == query
    requires l in Search(query, contents)
    ensures l in ISearch(query, contents)
  {
    SearchSpec(query, contents);
    ISearchSpec(query, contents);
    ContainsIff(l, query);
    var i :| OccursAt(l, query, i);
    LowerOccurs(l, query, i);
    ContainsIff(Lower(l), Lower(query));
  }

  /** `search_v0`: push every matching line in a `for` loop over `lines()`. */
  method SearchV0(query: string, contents: string) returns (results: seq<string>)
    ensures results == Search(query, contents)
  {
    var lines := Lines(contents);
    results := [];
    for i := 0 to |lines|
      invariant results == Seqs.Filter(Matches(query), lines[..i])
    {
      Seqs.FilterSnoc(Matches(query), lines[..i], lines[i]);
      if Contains(lines[i], query) {
        results := results + [lines[i]];
      }
      assert lines[..i + 1] == lines[..i] + [lines[i]];
    }
    assert lines[..|lines|] == lines;
  }

  /** One more line for `isearch_v0`'s loop: kept iff its lowercase form
      contains the lowercased query. */
  lemma ISearchStep(query: string, seen: seq<string>, line: string)
    ensures Seqs.Filter(MatchesIgnoringCase(query), seen + [line]) ==
      Seqs.Filter(MatchesIgnoringCase(query), seen) +
      (if Contains(Lower(line), Lower(query)) then [line] else [])
  {
    Seqs.FilterSnoc(MatchesIgnoringCase(query), seen, line);
  }

  /** `isearch_v0`: lowercase the query once, then each line, in a `for` loop. */
  method ISearchV0(query: string, contents: string) returns (results: seq<string>)
    ensures results == ISearch(query, contents)
  {
    var lowerQuery := Lower(query);
    var lines := Lines(contents);
    results := [];
    for i := 0 to |lines|
      invariant results == Seqs.Filter(MatchesIgnoringCase(query), lines[..i])
    {
      var line := lines[i];
      ISearchStep(query, lines[..i], line);
      if Contains(Lower(line), lowerQuery) {
        results := results + [line];
      }
      assert lines[..i + 1] == lines[..i] + [lines[i]];
    }
    assert lines[..|lines|] == lines;
  }

  // ----- run -----

  /** The lines `run` prints for `config` once the file has been read into
      `contents`, with the dispatch as written: `ignore_case` selects the
      case-sensitive search. */
  function RunResults(config: Config, contents: string): (r: seq<string>)
    ensures config.ignoreCase ==> r == Search(config.query, contents)
    ensures !config.ignoreCase ==> r == ISearch(config.query, contents)
  {
    if config.ignoreCase then Search(config.query, contents) else ISearch(config.query, contents)
  }

  /** The dispatch the flag's name calls for: ignore case when asked to. */
  function RunResultsIntended(config: Config, contents: string): (r: seq<string>)
    ensures config.ignoreCase ==> r == ISearch(config.query, contents)
    ensures !config.ignoreCase ==> r == Search(config.query, contents)
  {
    if config.ignoreCase then ISearch(config.query, contents) else Search(config.query, contents)
  }

  /** As written, `run` behaves as the intended dispatch with the flag flipped. */
  lemma RunDispatchInverted(config: Config, contents: string)
    ensures RunResults(config, contents) == RunResultsIntended(config.(ignoreCase := !config.ignoreCase), contents)
  {
  }

  // ----- the library's example tests -----

  /** `c` does not occur in `s` but does in `q`, so `q` is not a substring of `s`. */
  lemma {:induction false} NotContainsByChar(s: string, q: string, c: char)
    requires c in q && c !in s
    ensures !Contains(s, q)
  {
    ContainsIff(s, q);
  }

  /** The texts of the library's tests, as their lines joined with "\n". */
  const OneResultLines := ["Rust:", "safe, fast, productive.", "Pick three."]
  const CaseSensitiveLines := ["Rust:", "safe, fast, productive.", "Pick three.", "Duct tape."]
  const CaseInsensitiveLines := ["Rust:", "safe, fast, productive.", "Pick three.", "Trust me."]

  lemma OneResultText()
    ensures Lines(Seqs.Join(OneResultLines, "\n")) == OneResultLines
  {
    LinesOfJoin(OneResultLines);
  }

  lemma CaseSensitiveText()
    ensures Lines(Seqs.Join(CaseSensitiveLines, "\n")) == CaseSensitiveLines
  {
    LinesOfJoin(CaseSensitiveLines);
  }

  lemma CaseInsensitiveText()
    ensures Lines(Seqs.Join(CaseInsensitiveLines, "\n")) == CaseInsensitiveLines
  {
    LinesOfJoin(CaseInsensitiveLines);
  }

  /** Filtering three lines, one at a time. */
  lemma FilterThree(p: string -> bool, a: string, b: string, c: string)
    ensures Seqs.Filter(p, [a, b, c]) ==
      (if p(a) then [a] else []) + (if p(b) then [b] else []) + (if p(c) then [c] else [])
  {
    assert [a, b, c][1..] == [b, c] && [b, c][1..] == [c] && [c][1..] == [];
    assert Seqs.Filter(p, [c]) == (if p(c) then [c] else []);
    assert Seqs.Filter(p, [b, c]) == (if p(b) then [b] else []) + Seqs.Filter(p, [c]);
  }

  /** Filtering four lines, one at a time. */
  lemma FilterFour(p: string -> bool, a: string, b: string, c: string, d: string)
    ensures Seqs.Filter(p, [a, b, c, d]) ==
      (if p(a) then [a] else []) + Seqs.Filter(p, [b, c, d])
  {
    assert [a, b, c, d][1..] == [b, c, d];
  }

  lemma DuctNotInRust()
    ensures !Contains("Rust:", "duct")
  {
    NotContainsByChar("Rust:", "duct", 'd');
  }

  lemma DuctInProductive()
    ensures Contains("safe, fast, productive.", "duct")
  {
    assert OccursAt("safe, fast, productive.", "duct", 15);
    ContainsIff("safe, fast, productive.", "duct");
  }

  lemma DuctNotInPick()
    ensures !Contains("Pick three.", "duct")
  {
    NotContainsByChar("Pick three.", "duct", 'd');
  }

  lemma DuctNotInDuctTape()
    ensures !Contains("Duct tape.", "duct")
  {
    NotContainsByChar("Duct tape.", "duct", 'd');
  }

  /** Test `one_result` and the integration test: "duct" finds one line. */
  lemma OneResult()
    ensures Search("duct", Seqs.Join(OneResultLines, "\n")) == ["safe, fast, productive."]
  {
    var ls := OneResultLines;
    OneResultText();
    DuctNotInRust();
    DuctInProductive();
    DuctNotInPick();
    FilterThree(Matches("duct"), ls[0], ls[1], ls[2]);
  }

  /** Test `case_sensitive`: "Duct tape." is not found by "duct". */
  lemma CaseSensitive()
    ensures Search("duct", Seqs.Join(CaseSensitiveLines, "\n")) == ["safe, fast, productive."]
  {
    var ls := CaseSensitiveLines;
    CaseSensitiveText();
    DuctNotInRust();
    DuctInProductive();
    DuctNotInPick();
    DuctNotInDuctTape();
    FilterFour(Matches("duct"), ls[0], ls[1], ls[2], ls[3]);
    FilterThree(Matches("duct"), ls[1], ls[2], ls[3]);
  }

  lemma LowerRUst()
    ensures Lower("rUst") == "rust"
  {
    assert Lower("rUst")[1] == 'u';
  }

  lemma LowerProductive()
    ensures Lower("safe, fast, productive.") == "safe, fast, productive."
  {
  }

  lemma LowerPick()
    ensures Lower("Pick three.") == "pick three."
  {
  }

  lemma LowerTrust()
    ensures Lower("Trust me.") == "trust me."
  {
  }

  lemma RustInRust()
    ensures MatchesIgnoringCase("rUst")("Rust:")
  {
    LowerRUst();
    assert Lower("Rust:") == "rust:";
    assert OccursAt("rust:", "rust", 0);
    ContainsIff("rust:", "rust");
  }

  /** `q` cannot start inside `a` when its first character is not in `a`. */
  lemma NotContainsAfter(a: string, b: string, q: string)
    requires q != [] && q[0] !in a && !Contains(b, q)
    ensures !Contains(a + b, q)
  {
    ContainsIff(a + b, q);
    ContainsIff(b, q);
    forall i | 0 <= i <= |a + b| - |q|
      ensures !OccursAt(a + b, q, i)
    {
      assert (a + b)[i..i + |q|][0] == (a + b)[i];
      if i < |a| {
        assert (a + b)[i] == a[i];
      } else {
        assert (a + b)[i..i + |q|] == b[i - |a|..i - |a| + |q|];
        assert !OccursAt(b, q, i - |a|);
      }
    }
  }

  lemma ProductiveSplit()
    ensures "safe, fast, p" + "roductive." == "safe, fast, productive."
  {
  }

  lemma RustNotInSplit()
    ensures !Contains("roductive.", "rust")
  {
    NotContainsByChar("roductive.", "rust", 's');
  }

  lemma NoRBeforeSplit()
    ensures 'r' !in "safe, fast, p"
  {
  }

  lemma RustNotInProductive()
    ensures !MatchesIgnoringCase("rUst")("safe, fast, productive.")
  {
    LowerRUst();
    LowerProductive();
    ProductiveSplit();
    RustNotInSplit();
    NoRBeforeSplit();
    NotContainsAfter("safe, fast, p", "roductive.", "rust");
  }

  lemma RustNotInPick()
    ensures !MatchesIgnoringCase("rUst")("Pick three.")
  {
    LowerRUst();
    LowerPick();
    NotContainsByChar("pick three.", "rust", 'u');
  }

  lemma RustInTrust()
    ensures MatchesIgnoringCase("rUst")("Trust me.")
  {
    LowerRUst();
    LowerTrust();
    assert OccursAt("trust me.", "rust", 1);
    ContainsIff("trust me.", "rust");
  }

  /** Test `case_insensitive`: "rUst" finds "Rust:" and "Trust me.". */
  lemma CaseInsensitive()
    ensures ISearch("rUst", Seqs.Join(CaseInsensitiveLines, "\n")) == ["Rust:", "Trust me."]
  {
    var ls := CaseInsensitiveLines;
    CaseInsensitiveText();
    RustInRust();
    RustNotInProductive();
    RustNotInPick();
    RustInTrust();
    FilterFour(MatchesIgnoringCase("rUst"), ls[0], ls[1], ls[2], ls[3]);
    FilterThree(MatchesIgnoringCase("rUst"), ls[1], ls[2], ls[3]);
  }

  /** No line of the `case_insensitive` text contains "rUst" as written. */
  lemma NoLineContainsRUst(ls: seq<string>)
    requires ls == CaseInsensitiveLines
    ensures forall k :: 0 <= k < |ls| ==> !Contains(ls[k], "rUst")
  {
    forall k | 0 <= k < |ls| ensures !Contains(ls[k], "rUst") {
      NotContainsByChar(ls[k], "rUst", 'U');
    }
  }

  /** With the `case_insensitive` text and `ignore_case` set, `run` as written
      prints nothing, although the intended case-insensitive search finds two lines. */
  lemma RunIgnoreCaseExample()
    ensures RunResults(Config("rUst", "poem.txt", true), Seqs.Join(CaseInsensitiveLines, "\n")) == []
    ensures RunResultsIntended(Config("rUst", "poem.txt", true), Seqs.Join(CaseInsensitiveLines, "\n")) == ["Rust:", "Trust me."]
  {
    var ls := CaseInsensitiveLines;
    CaseInsensitiveText();
    NoLineContainsRUst(ls);
    FilterFour(Matches("rUst"), ls[0], ls[1], ls[2], ls[3]);
    FilterThree(Matches("rUst"), ls[1], ls[2], ls[3]);
    CaseInsensitive();
  }
}
