/** Choosing the repos.json entry for a push: the branch named by `ref` first, then
    the repository itself, with Python's truthiness deciding what counts as found. */
module Lookup {
  import opened Wrappers
  import opened Text

  /** One value of the repos.json object. Each element of `action` is the argument
      vector of one process. `otherFields` counts the fields besides
      `key`, `path` and `action`: they are never read, but they make the entry
      non-empty. */
  datatype RepoConfig = RepoConfig(
    key: Option<string>,
    path: Option<string>,
    action: Option<seq<seq<string>>>,
    otherFields: nat)

  /** The entry is `{}`, which Python treats as false. */
  predicate IsEmpty(c: RepoConfig)
  {
    c.key.None? && c.path.None? && c.action.None? && c.otherFields == 0
  }

  /** Python truthiness of a `repos.get(k, None)` result: neither None nor `{}`. */
  predicate Truthy(entry: Option<RepoConfig>)
  {
    entry.Some? && !IsEmpty(entry.value)
  }

  /** `repos.get(k, None)`. */
  function GetEntry(repos: map<string, RepoConfig>, k: string): Option<RepoConfig>
  {
    if k in repos then Some(repos[k]) else None
  }

  const HeadsPrefix: string := "refs/heads/"

  /** `re.match(r"refs/heads/(?P<branch>.*)", ref)`: the pattern is anchored at the
      start only, and `.` stops at the first newline. */
  function ParseBranch(ref: string): (branch: Option<string>)
    ensures branch.Some? <==> HeadsPrefix <= ref
    ensures branch.Some? ==> '\n' !in branch.value && HeadsPrefix + branch.value <= ref
    ensures branch.Some? && |HeadsPrefix| + |branch.value| < |ref| ==>
              ref[|HeadsPrefix| + |branch.value|] == '\n'
  {
    if HeadsPrefix <= ref then Some(TakeUntil(ref[|HeadsPrefix|..], '\n')) else None
  }

  /** Every newline-free branch name comes back out of the ref it names, and any
      text after a newline is ignored. */
  lemma ParseBranchRoundTrip(b: string, rest: string)
    requires '\n' !in b
    ensures ParseBranch(HeadsPrefix + b) == Some(b)
    ensures ParseBranch(HeadsPrefix + b + "\n" + rest) == Some(b)
  {
    assert (HeadsPrefix + b)[|HeadsPrefix|..] == b;
    TakeUntilWhole(b, '\n');
    var r := HeadsPrefix + b + "\n" + rest;
    assert HeadsPrefix <= r;
    assert r[|HeadsPrefix|..] == b + ("\n" + rest);
    TakeUntilAfter(b, "\n" + rest, '\n');
    assert TakeUntil("\n" + rest, '\n') == [];
    assert b + [] == b;
  }

  /** `'{owner}/{name}'`. */
  function RepoKey(owner: string, name: string): string
  {
    owner + "/" + name
  }

  /** `'{owner}/{name}/branch:{branch}'`. */
  function BranchKey(owner: string, name: string, branch: string): (k: string)
    ensures k != RepoKey(owner, name)
  {
    owner + "/" + name + "/branch:" + branch
  }

  /** Different branches of one repository read different entries. */
  lemma BranchKeyInjective(owner: string, name: string, b1: string, b2: string)
    ensures BranchKey(owner, name, b1) == BranchKey(owner, name, b2) ==> b1 == b2
  {
    var p := owner + "/" + name + "/branch:";
    if BranchKey(owner, name, b1) == BranchKey(owner, name, b2) {
      assert BranchKey(owner, name, b1)[|p|..] == b1;
      assert BranchKey(owner, name, b2)[|p|..] == b2;
    }
  }

  /** Python's local variable: assigned or never assigned. */
  datatype Local<T> = Unassigned | Assigned(value: T)

  /** What lines 116-133 end with: an entry to use, nothing usable (403), or the
      `UnboundLocalError` that `if not repo` raises when `repo` was never assigned. */
  datatype Resolution = Found(config: RepoConfig) | NotFound | Unbound

  function Resolve(repos: map<string, RepoConfig>, owner: string, name: string, ref: string): (r: Resolution)
    ensures r.Unbound? <==> !(HeadsPrefix <= ref)
    ensures r.Found? ==> !IsEmpty(r.config) && r.config in repos.Values
  {
    var repo: Local<Option<RepoConfig>> :=
      match ParseBranch(ref)
      case Some(branch) => Assigned(GetEntry(repos, BranchKey(owner, name, branch)))
      case None => Unassigned;
    if repo.Unassigned? then Unbound
    else
      var entry := if Truthy(repo.value) then repo.value else GetEntry(repos, RepoKey(owner, name));
      if Truthy(entry) then Found(entry.value) else NotFound
  }

  /** A non-empty entry for the pushed branch wins. */
  lemma BranchEntryFirst(repos: map<string, RepoConfig>, owner: string, name: string, branch: string)
    requires '\n' !in branch
    requires BranchKey(owner, name, branch) in repos
    requires !IsEmpty(repos[BranchKey(owner, name, branch)])
    ensures Resolve(repos, owner, name, HeadsPrefix + branch) == Found(repos[BranchKey(owner, name, branch)])
  {
    ParseBranchRoundTrip(branch, "");
  }

  /** Without a non-empty entry for the branch the pattern captured (for any ref under
      `refs/heads/`, a newline after the branch name included) the repository entry is
      used, and when that is missing or empty too nothing is found. */
  lemma RepoEntryFallback(repos: map<string, RepoConfig>, owner: string, name: string, ref: string)
    requires HeadsPrefix <= ref
    requires var kb := BranchKey(owner, name, ParseBranch(ref).value);
      kb !in repos || IsEmpty(repos[kb])
    ensures var k := RepoKey(owner, name);
      Resolve(repos, owner, name, ref) ==
        if k in repos && !IsEmpty(repos[k]) then Found(repos[k]) else NotFound
  {
  }

  /** Whatever the branch, an entry is found exactly when one of the two candidate
      keys holds a non-empty entry; a found entry is the branch entry whenever that one
      is non-empty, and the repository entry (or nothing) otherwise. */
  lemma FoundIffCandidate(repos: map<string, RepoConfig>, owner: string, name: string, ref: string)
    requires HeadsPrefix <= ref
    ensures var kb := BranchKey(owner, name, ParseBranch(ref).value);
      var kr := RepoKey(owner, name);
      (Resolve(repos, owner, name, ref).Found? <==> Truthy(GetEntry(repos, kb)) || Truthy(GetEntry(repos, kr))) &&
      (Truthy(GetEntry(repos, kb)) ==> Resolve(repos, owner, name, ref) == Found(repos[kb])) &&
      (!Truthy(GetEntry(repos, kb)) ==>
         Resolve(repos, owner, name, ref) == if Truthy(GetEntry(repos, kr)) then Found(repos[kr]) else NotFound)
  {
  }
}
