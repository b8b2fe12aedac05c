/** The command line of `Main.kt`: `parseArgs`, the string checks of `validateFilePath`,
    and the way `main` picks a mode and fills in the options it was not given. */
module Cli {
  import opened KotlinStd

  // ---------------------------------------------------------------------------
  // parseArgs
  // ---------------------------------------------------------------------------

  /** The position of the first '=' in `s`, if any. */
  function FirstEq(s: string): (r: Option<nat>)
    ensures r.Some? ==> r.value < |s| && s[r.value] == '=' && '=' !in s[..r.value]
    ensures r.None? ==> '=' !in s
  {
    if s == [] then None
    else if s[0] == '=' then Some(0)
    else
      var r := FirstEq(s[1..]);
      assert s == [s[0]] + s[1..];
      if r.Some? then
        assert s[..r.value + 1] == [s[0]] + s[1..][..r.value];
        Some(r.value + 1)
      else None
  }

  /** `s.split("=", limit = 2)` when it gives two parts: the text before the first '=' and
      the text after it; `None` when `s` has no '='. */
  function SplitAtEq(s: string): Option<(string, string)> {
    match FirstEq(s)
    case None => None
    case Some(e) => Some((s[..e], s[e + 1..]))
  }

  /** The value test of `parseArgs`: it starts and ends with '"', or starts and ends with
      '\''. A single quote character passes both ends at once. */
  predicate Quoted(v: string) {
    |v| >= 1 && ((v[0] == '"' && v[|v| - 1] == '"') || (v[0] == '\'' && v[|v| - 1] == '\''))
  }

  /** What one argument does to the map: nothing, set a key, or throw (a value that is one
      quote character alone makes `substring(1, 0)` throw). */
  datatype Entry = Skip | Set(key: string, value: string) | Throws

  function EntryOf(arg: string): Entry {
    if |arg| >= 2 && arg[..2] == "--" then
      match SplitAtEq(arg[2..])
      case None => Skip
      case Some((key, v)) =>
        if Quoted(v) then
          if |v| < 2 then Throws else Set(key, v[1..|v| - 1])
        else Set(key, v)
    else Skip
  }

  /** The error `parseArgs` throws. */
  const IndexError: string := "StringIndexOutOfBoundsException"

  /** The loop of `parseArgs` from argument `i` on, with the map built so far. */
  function ParamsFrom(args: seq<string>, i: nat, params: map<string, string>): Result<map<string, string>, string>
    requires i <= |args|
    decreases |args| - i
  {
    if i == |args| then Success(params)
    else
      match EntryOf(args[i])
      case Skip => ParamsFrom(args, i + 1, params)
      case Set(key, value) => ParamsFrom(args, i + 1, params[key := value])
      case Throws => Failure(IndexError)
  }

  /** `parseArgs(args)`. */
  function ParamsOf(args: seq<string>): Result<map<string, string>, string> {
    ParamsFrom(args, 0, map[])
  }

  method ParseArgs(args: seq<string>) returns (r: Result<map<string, string>, string>)
    ensures r == ParamsOf(args)
  {
    var params: map<string, string> := map[];
    for i := 0 to |args|
      invariant ParamsFrom(args, i, params) == ParamsOf(args)
    {
      var arg := args[i];
      if |arg| >= 2 && arg[..2] == "--" {
        var parts := SplitAtEq(arg[2..]);
        if parts.Some? {
          var key := parts.value.0;
          var value := parts.value.1;
          if (|value| >= 1 && value[0] == '"' && value[|value| - 1] == '"') ||
             (|value| >= 1 && value[0] == '\'' && value[|value| - 1] == '\'') {
            if |value| < 2 {
              return Failure(IndexError);
            }
            value := value[1..|value| - 1];
          }
          params := params[key := value];
        }
      }
    }
    r := Success(params);
  }

  // ----- the reference: the last argument that sets a key wins

  /** The value the last of `args[..n]` to set `key` gave it. */
  function LastSet(args: seq<string>, n: nat, key: string): Option<string>
    requires n <= |args|
  {
    if n == 0 then None
    else match EntryOf(args[n - 1])
      case Set(k, v) => if k == key then Some(v) else LastSet(args, n - 1, key)
      case _ => LastSet(args, n - 1, key)
  }

  /** Looking `key` up in `m`, as `m[key]` does in Kotlin. */
  function Lookup(m: map<string, string>, key: string): Option<string> {
    if key in m then Some(m[key]) else None
  }

  /** The map holds, for every key, what the last of `args[..i]` to set it gave it. */
  ghost predicate Reflects(args: seq<string>, i: nat, params: map<string, string>)
    requires i <= |args|
  {
    forall key :: Lookup(params, key) == LastSet(args, i, key)
  }

  lemma {:induction false} ParamsFromLastWins(args: seq<string>, i: nat, params: map<string, string>)
    requires i <= |args| && Reflects(args, i, params)
    ensures ParamsFrom(args, i, params).Success? ==> Reflects(args, |args|, ParamsFrom(args, i, params).value)
    decreases |args| - i
  {
    if i < |args| {
      match EntryOf(args[i])
      case Skip =>
        ParamsFromLastWins(args, i + 1, params);
      case Set(k, v) =>
        var next := params[k := v];
        forall key ensures Lookup(next, key) == LastSet(args, i + 1, key) {
        }
        ParamsFromLastWins(args, i + 1, next);
      case Throws =>
    }
  }

  /** When `parseArgs` returns, a key is in the map exactly when some argument sets it, and
      its value is the one the last such argument gives: later arguments overwrite earlier
      ones. */
  lemma ParamsLastWins(args: seq<string>)
    ensures ParamsOf(args).Success? ==>
      forall key :: Lookup(ParamsOf(args).value, key) == LastSet(args, |args|, key)
  {
    ParamsFromLastWins(args, 0, map[]);
  }

  /** `parseArgs` throws exactly when some argument is "--", a key, '=' and one quote
      character alone. */
  lemma {:induction false} ParamsFromThrows(args: seq<string>, i: nat, params: map<string, string>)
    requires i <= |args|
    ensures ParamsFrom(args, i, params).Failure? <==> exists j :: i <= j < |args| && EntryOf(args[j]) == Throws
    decreases |args| - i
  {
    if i < |args| {
      match EntryOf(args[i])
      case Skip =>
        ParamsFromThrows(args, i + 1, params);
      case Set(k, v) =>
        ParamsFromThrows(args, i + 1, params[k := v]);
      case Throws =>
    }
  }

  lemma ParamsThrows(args: seq<string>)
    ensures ParamsOf(args).Failure? <==> exists j :: 0 <= j < |args| && EntryOf(args[j]) == Throws
  {
    ParamsFromThrows(args, 0, map[]);
  }

  // ----- what one argument does

  /** An argument that does not start with "--", or has no '=' after it, is ignored. */
  lemma IgnoredArg(arg: string)
    requires !(|arg| >= 2 && arg[..2] == "--") || '=' !in arg[2..]
    ensures EntryOf(arg) == Skip
  {
  }

  /** An argument sets a key only when it is "--", the key, '=' and the raw value, with no
      '=' in the key; the split is at the first '='. */
  lemma EntrySplit(arg: string)
    requires EntryOf(arg).Set?
    ensures exists raw :: arg == "--" + EntryOf(arg).key + "=" + raw && '=' !in EntryOf(arg).key
  {
    var rest := arg[2..];
    var e := FirstEq(rest).value;
    var key, raw := rest[..e], rest[e + 1..];
    assert EntryOf(arg).key == key;
    assert rest == key + "=" + raw;
    assert arg == "--" + key + "=" + raw;
  }

  /** Writing "--", a key without '=', '=' and any value gives back that key and the value,
      unquoted: the value may hold '=' itself, and the key may be empty. */
  lemma EntryRoundTrip(key: string, value: string)
    requires '=' !in key
    ensures EntryOf("--" + key + "=" + value) ==
      if !Quoted(value) then Set(key, value)
      else if |value| < 2 then Throws
      else Set(key, value[1..|value| - 1])
  {
    var arg := "--" + key + "=" + value;
    var rest := key + "=" + value;
    assert arg[..2] == "--" && arg[2..] == rest;
    FirstEqAfter(key, value);
    assert rest[..|key|] == key && rest[|key| + 1..] == value;
  }

  lemma {:induction false} FirstEqAfter(key: string, value: string)
    requires '=' !in key
    ensures FirstEq(key + "=" + value) == Some(|key|)
    decreases |key|
  {
    var s := key + "=" + value;
    if key != [] {
      assert key[0] in key;
      assert s[1..] == key[1..] + "=" + value;
      FirstEqAfter(key[1..], value);
    }
  }

  /** One outer pair of matching quotes is removed: "--k=\"x\"" and "--k='x'" both give x. */
  lemma QuotesStripped(key: string, x: string)
    requires '=' !in key
    ensures EntryOf("--" + key + "=" + ("\"" + x + "\"")) == Set(key, x)
    ensures EntryOf("--" + key + "=" + ("'" + x + "'")) == Set(key, x)
  {
    var d := "\"" + x + "\"";
    var q := "'" + x + "'";
    EntryRoundTrip(key, d);
    EntryRoundTrip(key, q);
    assert d[1..|d| - 1] == x && q[1..|q| - 1] == x;
  }

  /** Mismatched quotes are kept. */
  lemma MismatchedQuotes(key: string, x: string)
    requires '=' !in key
    ensures EntryOf("--" + key + "=" + ("\"" + x + "'")) == Set(key, "\"" + x + "'")
    ensures EntryOf("--" + key + "=" + ("'" + x + "\"")) == Set(key, "'" + x + "\"")
  {
    EntryRoundTrip(key, "\"" + x + "'");
    EntryRoundTrip(key, "'" + x + "\"");
  }

  /** A lone quote as the value throws. */
  lemma LoneQuote(key: string)
    requires '=' !in key
    ensures EntryOf("--" + key + "=" + "\"") == Throws
    ensures EntryOf("--" + key + "=" + "'") == Throws
  {
    EntryRoundTrip(key, "\"");
    EntryRoundTrip(key, "'");
  }

  // ---------------------------------------------------------------------------
  // validateFilePath
  // ---------------------------------------------------------------------------

  /** `path` holds two dots in a row. */
  predicate HasDotDot(path: string) {
    exists i :: 0 <= i < |path| - 1 && path[i] == '.' && path[i + 1] == '.'
  }

  /** The string checks of `validateFilePath`: a NUL character, "..", or nothing at all. */
  predicate PathRejected(path: string) {
    '\U{0}' in path || HasDotDot(path) || path == []
  }

  /** `validateFilePath(path)`, with `canonical` standing for `File(path).canonicalFile`
      (`None` where it throws). */
  function ValidateFilePath(path: string, canonical: string -> Option<string>): (r: Option<string>)
    ensures r.Some? ==> path != [] && '\U{0}' !in path && !HasDotDot(path)
    ensures r.Some? ==> r == canonical(path)
  {
    if PathRejected(path) then None else canonical(path)
  }

  /** A path is accepted exactly when it passes the string checks and can be made
      canonical. */
  lemma ValidateFilePathIff(path: string, canonical: string -> Option<string>)
    ensures ValidateFilePath(path, canonical).Some? <==> !PathRejected(path) && canonical(path).Some?
  {
  }

  /** Any path that climbs to a parent directory is refused, whatever the file system says. */
  lemma ParentRefused(a: string, b: string, canonical: string -> Option<string>)
    ensures ValidateFilePath(a + ".." + b, canonical) == None
  {
    var p := a + ".." + b;
    assert p[|a|] == '.' && p[|a| + 1] == '.';
  }

  // ---------------------------------------------------------------------------
  // main: mode and option defaults
  // ---------------------------------------------------------------------------

  /** An integer option: the option read with `toIntOrNull()`, or `dflt` when it is absent
      or not a 32-bit integer. */
  function IntOption(params: map<string, string>, key: string, dflt: int): int {
    if key in params then
      match ToIntOrNull(params[key])
      case Some(v) => v
      case None => dflt
    else dflt
  }

  /** A text option: the option, or `dflt` when it is absent. */
  function TextOption(params: map<string, string>, key: string, dflt: string): string {
    if key in params then params[key] else dflt
  }

  /** An integer written out in decimal is read back; any other text gives the default. */
  lemma IntOptionRoundTrip(params: map<string, string>, key: string, n: int, dflt: int)
    requires IntMin <= n <= IntMax && key in params && params[key] == IntToString(n)
    ensures IntOption(params, key, dflt) == n
  {
    IntRoundTrip(n);
  }

  /** What `main` goes on to do: one of the three modes with its options settled, or print
      an error and exit with status 1. */
  datatype Action =
    | Chunk(input: string, output: string, docId: string, targetLen: int, overlapSize: int)
    | Embed(chunks: string, docId: string)
    | Search(query: string, docFilter: Option<string>, topK: int)
    | Exit(message: string)

  const DefaultDocId: string := "myDocument"
  const DefaultTargetLen: int := 1000
  const DefaultOverlapSize: int := 150
  const DefaultTopK: int := 5

  /** The `chunk` mode of `main`: the required paths, the defaulted options, the path
      checks, and the existence check on the input (`present` stands for `File.exists`). */
  function ChunkMode(params: map<string, string>, canonical: string -> Option<string>, present: string -> bool): Action {
    if "input" !in params then Exit("Error: --input is required for chunk mode")
    else if "output" !in params then Exit("Error: --output is required for chunk mode")
    else
      var input := params["input"];
      var output := params["output"];
      var docId := TextOption(params, "docId", DefaultDocId);
      var targetLen := IntOption(params, "targetLen", DefaultTargetLen);
      var overlapSize := IntOption(params, "overlapSize", DefaultOverlapSize);
      match ValidateFilePath(input, canonical)
      case None => Exit("Error: Invalid input file path: " + input)
      case Some(inputFile) =>
        match ValidateFilePath(output, canonical)
        case None => Exit("Error: Invalid output file path: " + output)
        case Some(outputFile) =>
          if !present(inputFile) then Exit("Error: Input file does not exist: " + input)
          else Chunk(inputFile, outputFile, docId, targetLen, overlapSize)
  }

  /** The `embed` mode of `main`. */
  function EmbedMode(params: map<string, string>, canonical: string -> Option<string>, present: string -> bool): Action {
    if "chunks" !in params then Exit("Error: --chunks is required for embed mode")
    else if "docId" !in params then Exit("Error: --docId is required for embed mode")
    else
      var chunks := params["chunks"];
      match ValidateFilePath(chunks, canonical)
      case None => Exit("Error: Invalid chunks file path: " + chunks)
      case Some(chunksFile) =>
        if !present(chunksFile) then Exit("Error: Chunks file does not exist: " + chunks)
        else Embed(chunksFile, params["docId"])
  }

  /** The `search` mode of `main`. */
  function SearchMode(params: map<string, string>): Action {
    if "query" !in params then Exit("Error: --query is required for search mode")
    else Search(params["query"], Lookup(params, "docId"), IntOption(params, "topK", DefaultTopK))
  }

  /** What `main` does with the parsed options, by the `mode` option. */
  function Dispatch(params: map<string, string>, canonical: string -> Option<string>, present: string -> bool): Action {
    var mode := Lookup(params, "mode");
    if mode == Some("chunk") then ChunkMode(params, canonical, present)
    else if mode == Some("embed") then EmbedMode(params, canonical, present)
    else if mode == Some("search") then SearchMode(params)
    else Exit(UnknownModeMessage)
  }

  /** `main(args)`: the action, or the error `parseArgs` throws. */
  function MainAction(args: seq<string>, canonical: string -> Option<string>, present: string -> bool): Result<Action, string> {
    match ParamsOf(args)
    case Failure(e) => Failure(e)
    case Success(params) => Success(Dispatch(params, canonical, present))
  }

  /** Chunking runs only with both paths given and accepted and the input present; its
      document id, target length and overlap are the options given, or "myDocument", 1000
      and 150 when absent (or, for the numbers, not integers). */
  lemma ChunkDefaults(params: map<string, string>, canonical: string -> Option<string>, present: string -> bool)
    ensures var a := Dispatch(params, canonical, present);
      a.Chunk? ==>
        && Lookup(params, "mode") == Some("chunk")
        && "input" in params && "output" in params
        && Some(a.input) == ValidateFilePath(params["input"], canonical) && present(a.input)
        && Some(a.output) == ValidateFilePath(params["output"], canonical)
        && a.docId == (if "docId" in params then params["docId"] else "myDocument")
        && a.targetLen == (if "targetLen" in params && ToIntOrNull(params["targetLen"]).Some?
                           then ToIntOrNull(params["targetLen"]).value else 1000)
        && a.overlapSize == (if "overlapSize" in params && ToIntOrNull(params["overlapSize"]).Some?
                             then ToIntOrNull(params["overlapSize"]).value else 150)
  {
  }

  /** Embedding runs only with the chunk file and the document id both given, the path
      accepted and the file present. */
  lemma EmbedRequires(params: map<string, string>, canonical: string -> Option<string>, present: string -> bool)
    ensures var a := Dispatch(params, canonical, present);
      a.Embed? ==>
        && Lookup(params, "mode") == Some("embed")
        && "chunks" in params && "docId" in params && a.docId == params["docId"]
        && Some(a.chunks) == ValidateFilePath(params["chunks"], canonical) && present(a.chunks)
  {
  }

  /** Searching takes the query given, the document id if any, and 5 results unless
      `topK` is an integer. */
  lemma SearchDefaults(params: map<string, string>, canonical: string -> Option<string>, present: string -> bool)
    requires Lookup(params, "mode") == Some("search") && "query" in params
    ensures var a := Dispatch(params, canonical, present);
      && a.Search? && a.query == params["query"] && a.docFilter == Lookup(params, "docId")
      && a.topK == (if "topK" in params && ToIntOrNull(params["topK"]).Some? then ToIntOrNull(params["topK"]).value else 5)
  {
  }

  /** The error `main` prints for a missing or unknown mode. */
  const UnknownModeMessage: string := "Error: Unknown mode. Use --mode=chunk, --mode=embed, or --mode=search"

  /** Each mode runs only when asked for by name, and any other mode, or none, ends in the
      unknown-mode error. */
  lemma ModeDispatch(params: map<string, string>, canonical: string -> Option<string>, present: string -> bool)
    ensures var a := Dispatch(params, canonical, present);
      && (a.Chunk? ==> Lookup(params, "mode") == Some("chunk"))
      && (a.Embed? ==> Lookup(params, "mode") == Some("embed"))
      && (a.Search? ==> Lookup(params, "mode") == Some("search"))
      && (Lookup(params, "mode") !in {Some("chunk"), Some("embed"), Some("search")} ==> a == Exit(UnknownModeMessage))
  {
  }

  /** With both paths given and accepted and nothing else, `--mode=chunk` chunks with the
      default document id, target length and overlap. */
  lemma DispatchExample(canonical: string -> Option<string>, present: string -> bool)
    requires canonical("in.txt") == Some("/w/in.txt") && canonical("out.jsonl") == Some("/w/out.jsonl")
    requires present("/w/in.txt")
    ensures Dispatch(map["mode" := "chunk", "input" := "in.txt", "output" := "out.jsonl"], canonical, present) ==
      Chunk("/w/in.txt", "/w/out.jsonl", "myDocument", 1000, 150)
  {
    var m := map["mode" := "chunk", "input" := "in.txt", "output" := "out.jsonl"];
    assert "docId" !in m && "targetLen" !in m && "overlapSize" !in m;
    assert !HasDotDot("in.txt") && !HasDotDot("out.jsonl");
  }
}
