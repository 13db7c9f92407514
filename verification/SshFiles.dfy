/**
  The files of the ssh_mgmt service, and what each of its calls may do to them whatever fails
  (host_modules/ssh_mgmt.py).
*/
module SshFiles {
  import opened FileFaults
  import opened SshOptions

  /* ----- paths ----- */

  datatype Dir = CheckpointDir | CaDir | RootDir
  datatype Name =
    | CaPubKey | AuthorizedKeys | AuthorizedUsers
    | CaPubKeyTemp | AuthorizedKeysTemp | AuthorizedUsersTemp
    | CopyTemp

  datatype Path = Path(dir: Dir, name: Name)

  function DirText(d: Dir): string {
    match d
    case CheckpointDir => "/tmp/ssh_checkpoint"
    case CaDir => "/etc/sonic/ssh"
    case RootDir => "/etc/sonic/ssh/root"
  }

  function NameText(n: Name): string {
    match n
    case CaPubKey => "ssh_ca_pub_key"
    case AuthorizedKeys => "authorized_keys"
    case AuthorizedUsers => "authorized_users"
    case CaPubKeyTemp => "ssh_ca_pub_key_temp"
    case AuthorizedKeysTemp => "authorized_keys_temp"
    case AuthorizedUsersTemp => "authorized_users_temp"
    case CopyTemp => "ssh_mgmt_file_temp"
  }

  function PathText(p: Path): string {
    DirText(p.dir) + "/" + NameText(p.name)
  }

  lemma BehindSlash(b: string, m: string, i: int)
    requires |b| < i <= |b| + |m|
    ensures (b + "/" + m)[i] in m
  {
    assert (b + "/" + m)[i] == m[i - |b| - 1];
  }

  lemma LastSlash(a: string, n: string, b: string, m: string)
    requires '/' !in n && '/' !in m && |n| <= |m| && a + "/" + n == b + "/" + m
    ensures a == b && n == m
  {
    var s := a + "/" + n;
    assert s[|a|] == '/' && |s| == |b| + 1 + |m|;
    if |n| == |m| {
      assert s[..|a|] == a && (b + "/" + m)[..|a|] == b;
      assert s[|a| + 1..] == n && (b + "/" + m)[|a| + 1..] == m;
    } else {
      BehindSlash(b, m, |a|);
    }
  }

  lemma NamesDiffer(n: Name, m: Name)
    ensures '/' !in NameText(n)
    ensures NameText(n) == NameText(m) ==> n == m
  {
    assert |NameText(CaPubKey)| == 14 && |NameText(AuthorizedKeys)| == 15 && |NameText(AuthorizedUsers)| == 16;
    assert |NameText(CaPubKeyTemp)| == 19 && |NameText(AuthorizedKeysTemp)| == 20 && |NameText(AuthorizedUsersTemp)| == 21;
    assert |NameText(CopyTemp)| == 18;
  }

  lemma DirsDiffer(d: Dir, e: Dir)
    ensures DirText(d) == DirText(e) ==> d == e
  {
    assert |DirText(CheckpointDir)| == 19 && |DirText(CaDir)| == 14 && |DirText(RootDir)| == 19;
    assert DirText(CheckpointDir)[1] == 't' && DirText(RootDir)[1] == 'e';
  }

  /** Different paths of the model are different files: no temporary name meets a saved or a live one. */
  lemma PathsAreDistinctFiles(p: Path, q: Path)
    requires PathText(p) == PathText(q)
    ensures p == q
  {
    NamesDiffer(p.name, q.name);
    NamesDiffer(q.name, p.name);
    DirsDiffer(p.dir, q.dir);
    SlashesAgree(DirText(p.dir), NameText(p.name), DirText(q.dir), NameText(q.name));
  }

  lemma SlashesAgree(a: string, n: string, b: string, m: string)
    requires '/' !in n && '/' !in m && a + "/" + n == b + "/" + m
    ensures a == b && n == m
  {
    if |n| <= |m| {
      LastSlash(a, n, b, m);
    } else {
      LastSlash(b, m, a, n);
    }
  }

  /** The three managed files. */
  datatype File = Ca | Keys | Users

  function NameOf(f: File): Name {
    match f
    case Ca => CaPubKey
    case Keys => AuthorizedKeys
    case Users => AuthorizedUsers
  }

  function Live(f: File): Path { Path(if f.Ca? then CaDir else RootDir, NameOf(f)) }
  function Saved(f: File): Path { Path(CheckpointDir, NameOf(f)) }
  function Staged(f: File): Path {
    Path(CheckpointDir, match f case Ca => CaPubKeyTemp case Keys => AuthorizedKeysTemp case Users => AuthorizedUsersTemp)
  }

  function Scratch(d: Dir): Path { Path(d, CopyTemp) }

  /* ----- what a call may do to the disk ----- */

  datatype Disk = Disk(
    files: map<Path, string>,
    checkpoint: bool,   // CHECKPOINT_DIR is a directory
    treeFaults: nat     // rmtree calls that failed so far
  )

  /** `p` in `a` and `q` in `b` have the same content, or are both absent. */
  predicate SameIn(a: map<Path, string>, p: Path, b: map<Path, string>, q: Path) {
    (p in a <==> q in b) && (p in a ==> a[p] == b[q])
  }

  /** Only the listed paths may differ. */
  ghost predicate Frame(a: map<Path, string>, b: map<Path, string>, changed: set<Path>) {
    forall p | p !in changed :: (p in a <==> p in b) && (p in a ==> a[p] == b[p])
  }

  /** Only the listed paths and the scratch files of copying may differ. */
  ghost predicate FrameButScratch(a: map<Path, string>, b: map<Path, string>, changed: set<Path>) {
    forall p: Path | p !in changed && !p.name.CopyTemp? :: (p in a <==> p in b) && (p in a ==> a[p] == b[p])
  }

  predicate Same(a: Disk, p: Path, b: Disk, q: Path) {
    SameIn(a.files, p, b.files, q)
  }

  ghost predicate Valid(d: Disk) {
    !d.checkpoint ==> forall p | p in d.files :: p.dir != CheckpointDir
  }

  ghost predicate LiveUntouched(a: Disk, b: Disk) {
    forall f :: Same(a, Live(f), b, Live(f))
  }

  /** Saved copies may be lost, but not altered, and without a failed rmtree not lost either unless the directory goes. */
  ghost predicate SavedOnlyLost(a: Disk, b: Disk) {
    && (forall f | Saved(f) in b.files :: Same(a, Saved(f), b, Saved(f)))
    && (b.checkpoint && b.treeFaults == a.treeFaults ==> forall f :: Same(a, Saved(f), b, Saved(f)))
    && a.treeFaults <= b.treeFaults
  }

  ghost predicate Creates(a: Disk, b: Disk, r: Reply) {
    && LiveUntouched(a, b)
    && a.treeFaults <= b.treeFaults
    && (r == Code(0) ==> b.checkpoint && b.treeFaults == a.treeFaults && forall f :: Same(a, Live(f), b, Saved(f)))
    && (r != Code(0) && b.treeFaults == a.treeFaults ==> !b.checkpoint)
    && (r.Code? ==> r.n == 0 || r.n == 1)
  }

  ghost predicate Restores(a: Disk, b: Disk, r: Reply) {
    && (r == Code(0) || r == Code(1))
    && (!a.checkpoint ==> b == a && r == Code(1))
    && SavedOnlyLost(a, b)
    && (b.treeFaults == a.treeFaults ==> !b.checkpoint)
    && (forall f :: Same(a, Live(f), b, Live(f)) || (Saved(f) in a.files && Same(a, Saved(f), b, Live(f))))
    && (r == Code(0) ==>
          && !b.checkpoint && b.treeFaults == a.treeFaults
          && forall f :: if Saved(f) in a.files then Same(a, Saved(f), b, Live(f)) else Same(a, Live(f), b, Live(f)))
  }

  ghost predicate Deletes(a: Disk, b: Disk, r: Reply) {
    && (r == Code(0) || r == Code(1))
    && (!a.checkpoint ==> b == a && r == Code(1))
    && LiveUntouched(a, b)
    && SavedOnlyLost(a, b)
    && (a.checkpoint ==> (r == Code(0) <==> !b.checkpoint) && (r == Code(0) <==> b.treeFaults == a.treeFaults))
  }

  /** One key of a set request that is decoded JSON: the file it is for, and the lines it asks for. */
  datatype Entry = CaKeys(keys: seq<string>) | AccountKeys(accounts: seq<Account>) | AccountUsers(accounts: seq<Account>) | Unknown

  datatype Request = InvalidJson | Entries(entries: seq<Entry>)

  function TargetOf(e: Entry): File
    requires !e.Unknown?
  {
    match e
    case CaKeys(_) => Ca
    case AccountKeys(_) => Keys
    case AccountUsers(_) => Users
  }

  function ContentOf(e: Entry): string
    requires !e.Unknown?
  {
    match e
    case CaKeys(keys) => FileOf(keys)
    case AccountKeys(accounts) => FileOf(AccountLines(accounts))
    case AccountUsers(accounts) => FileOf(AccountLines(accounts))
  }

  /** `p` holds what the entry asks for. */
  predicate Holds(d: Disk, e: Entry)
    requires !e.Unknown?
  {
    Live(TargetOf(e)) in d.files && d.files[Live(TargetOf(e))] == ContentOf(e)
  }

  /** The code the loop in `set` ends with: that of the last recognised entry, or 0. */
  function LastCode(entries: seq<Entry>, codes: seq<int>): int
    requires |codes| == |entries|
  {
    if entries == [] then 0
    else if entries[|entries| - 1].Unknown? then LastCode(entries[..|entries| - 1], codes[..|codes| - 1])
    else codes[|codes| - 1]
  }

  /** Entries for different files have different keys, as the keys of a JSON object do. */
  ghost predicate OneEntryPerFile(entries: seq<Entry>) {
    forall i, j | 0 <= i < j < |entries| && !entries[i].Unknown? && !entries[j].Unknown? ::
      TargetOf(entries[i]) != TargetOf(entries[j])
  }

  ghost predicate PublishedBy(entries: seq<Entry>, d: Disk, f: File) {
    exists i | 0 <= i < |entries| :: !entries[i].Unknown? && TargetOf(entries[i]) == f && Holds(d, entries[i])
  }

  /** After the entries have been gone through with the given copy codes. */
  ghost predicate Applied(a: Disk, b: Disk, entries: seq<Entry>, codes: seq<int>) {
    && |codes| == |entries|
    && b.checkpoint == a.checkpoint && b.treeFaults == a.treeFaults
    && (forall f :: Same(a, Saved(f), b, Saved(f)))
    && (forall f :: Same(a, Live(f), b, Live(f)) || PublishedBy(entries, b, f))
    && (forall i | 0 <= i < |entries| && !entries[i].Unknown? && codes[i] == 0 :: Holds(b, entries[i]))
  }

  ghost predicate Sets(a: Disk, b: Disk, request: Request, r: Reply) {
    && (!a.checkpoint || request.InvalidJson? ==> b == a && r == Code(1))
    && b.checkpoint == a.checkpoint && b.treeFaults == a.treeFaults
    && (forall f :: Same(a, Saved(f), b, Saved(f)))
    && (a.checkpoint && request.Entries? ==>
          r.Code? ==> exists codes :: Applied(a, b, request.entries, codes) && r.n == LastCode(request.entries, codes))
    && (request.Entries? ==>
          forall f :: Same(a, Live(f), b, Live(f)) || PublishedBy(request.entries, b, f))
  }

  /** After copying `s` to `d`: the destination is as it was or as the source was, and the latter on success if there was a source. */
  predicate Copied(before: map<Path, string>, s: Path, after: map<Path, string>, d: Path, success: bool) {
    || (SameIn(before, d, after, d) && (success ==> s !in before))
    || (s in before && SameIn(before, s, after, d))
  }
}
