/**
 * The script locator (Script.LookForScript): tries a fixed list of nine
 * candidate paths for a script name and keeps the first one that exists.
 * Which files exist is given as a set of paths; the directory separator is
 * a parameter (the source picks '/' under Mono and '\' otherwise).
 */
module Locator {

  const Directories := ["", "scripts", "config"]
  const Extensions := ["", ".txt", ".cs"]

  /** The candidates in probing order: bare, `.txt`, `.cs`, then the same under `scripts` and under `config`. */
  function Candidates(filename: string, slash: char): (r: seq<string>)
    ensures |r| == 9
  {
    [ filename,
      filename + ".txt",
      filename + ".cs",
      "scripts" + [slash] + filename,
      "scripts" + [slash] + filename + ".txt",
      "scripts" + [slash] + filename + ".cs",
      "config" + [slash] + filename,
      "config" + [slash] + filename + ".txt",
      "config" + [slash] + filename + ".cs" ]
  }

  /** Directory `d` with `slash`, or nothing for the bare name. */
  function Prefix(d: nat, slash: char): string
    requires d < 3
  {
    if d == 0 then [] else Directories[d] + [slash]
  }

  /** Some candidate exists. */
  ghost predicate AnyExists(filename: string, slash: char, existing: set<string>) {
    exists k :: 0 <= k < 9 && Candidates(filename, slash)[k] in existing
  }

  /** `path` is the first existing candidate. */
  ghost predicate FirstExisting(filename: string, slash: char, existing: set<string>, path: string) {
    exists k :: 0 <= k < 9 && Candidates(filename, slash)[k] == path && path in existing
      && forall j :: 0 <= j < k ==> Candidates(filename, slash)[j] !in existing
  }

  /**
   * The probing loop with its early return. Returns whether a candidate exists and the
   * new value of the `ref` parameter: the first existing candidate, or the name unchanged.
   */
  method LookForScript(filename: string, slash: char, existing: set<string>) returns (found: bool, path: string)
    ensures found <==> AnyExists(filename, slash, existing)
    ensures found ==> FirstExisting(filename, slash, existing, path)
    ensures !found ==> path == filename
  {
    var files := Candidates(filename, slash);
    for i := 0 to |files|
      invariant forall j :: 0 <= j < i ==> files[j] !in existing
    {
      if files[i] in existing {
        return true, files[i];
      }
    }
    return false, filename;
  }

  /**
   * The candidate list is directory-major: every extension is tried in one directory
   * before the next directory, and the bare name before `.txt` before `.cs`.
   */
  lemma CandidateOrder(filename: string, slash: char, d: nat, e: nat)
    requires d < 3 && e < 3
    ensures Candidates(filename, slash)[3 * d + e] == Prefix(d, slash) + filename + Extensions[e]
  {
  }
}
