/** Which file each key of an ssh_mgmt set request is for, and which lines it gets (host_modules/ssh_mgmt.py). */
module SshKeys {
  import opened FileFaults
  import opened SshFiles
  import opened SshHistory
  import opened SshOptions
  import opened SshRuns
  import opened Wrappers

  const CA_FILE := Path(CaDir, CaPubKey)
  const KEYS_FILE := Path(RootDir, AuthorizedKeys)
  const USERS_FILE := Path(RootDir, AuthorizedUsers)

  /** Where the managed files, their saved copies and their staged texts are. */
  lemma PathsOfFiles()
    ensures PathText(CA_FILE) == "/etc/sonic/ssh" + "/" + "ssh_ca_pub_key"
    ensures PathText(KEYS_FILE) == "/etc/sonic/ssh/root" + "/" + "authorized_keys"
    ensures PathText(USERS_FILE) == "/etc/sonic/ssh/root" + "/" + "authorized_users"
    ensures Live(Ca) == CA_FILE && Live(Keys) == KEYS_FILE && Live(Users) == USERS_FILE
    ensures PathText(Saved(Ca)) == "/tmp/ssh_checkpoint" + "/" + "ssh_ca_pub_key"
    ensures PathText(Saved(Keys)) == "/tmp/ssh_checkpoint" + "/" + "authorized_keys"
    ensures PathText(Saved(Users)) == "/tmp/ssh_checkpoint" + "/" + "authorized_users"
    ensures PathText(Staged(Ca)) == "/tmp/ssh_checkpoint" + "/" + "ssh_ca_pub_key_temp"
    ensures PathText(Staged(Keys)) == "/tmp/ssh_checkpoint" + "/" + "authorized_keys_temp"
    ensures PathText(Staged(Users)) == "/tmp/ssh_checkpoint" + "/" + "authorized_users_temp"
  {
  }

  /* ----- the lines of the accounts ----- */

  /** Where a key, or a user, stands in the accounts. */
  datatype Place = Place(account: nat, item: nat)

  /** The key or user there is kept: the account is root's, and the text is not empty. */
  predicate Kept(accounts: seq<Account>, at: Place) {
    && at.account < |accounts| && accounts[at.account].account == Some("root") && accounts[at.account].items.Some?
    && at.item < |accounts[at.account].items.value|
    && var text := accounts[at.account].items.value[at.item].text; text.Some? && text.value != ""
  }

  function ItemAt(accounts: seq<Account>, at: Place): Item
    requires Kept(accounts, at)
  {
    accounts[at.account].items.value[at.item]
  }

  predicate Before(p: Place, q: Place) { p.account < q.account || (p.account == q.account && p.item < q.item) }

  ghost predicate InOrder(places: seq<Place>) {
    forall m, n | 0 <= m < n < |places| :: Before(places[m], places[n])
  }

  /** The kept places, all of them, in order. */
  ghost predicate AllKept(accounts: seq<Account>, places: seq<Place>) {
    && (forall n | 0 <= n < |places| :: Kept(accounts, places[n]))
    && InOrder(places)
    && (forall at | Kept(accounts, at) :: at in places)
  }

  ghost predicate LinesAt(accounts: seq<Account>, places: seq<Place>, lines: seq<string>) {
    && |lines| == |places|
    && forall n | 0 <= n < |lines| :: Kept(accounts, places[n]) && lines[n] == LineOf(ItemAt(accounts, places[n]))
  }

  /** The lines are those of the kept keys, or users, of root's accounts: each once, in order, and no others. */
  ghost predicate RootsLines(accounts: seq<Account>, lines: seq<string>) {
    exists places :: AllKept(accounts, places) && LinesAt(accounts, places, lines)
  }

  /** Item `n` of the last account, or none, has been gone through. */
  ghost predicate KeptUpTo(accounts: seq<Account>, n: nat, places: seq<Place>) {
    && (forall m | 0 <= m < |places| :: Kept(accounts, places[m]) && (places[m].account + 1 == |accounts| ==> places[m].item < n))
    && InOrder(places)
    && (forall at | Kept(accounts, at) && (at.account + 1 == |accounts| ==> at.item < n) :: at in places)
  }

  lemma NextIsIn(accounts: seq<Account>, n: nat, places: seq<Place>, more: seq<Place>, at: Place)
    requires accounts != [] && KeptUpTo(accounts, n, places)
    requires var here := Place(|accounts| - 1, n); more == if Kept(accounts, here) then places + [here] else places
    requires Kept(accounts, at) && (at.account + 1 == |accounts| ==> at.item < n + 1)
    ensures at in more
  {
    if at == Place(|accounts| - 1, n) {
      assert more[|places|] == at;
    } else {
      assert at in places;
    }
  }

  lemma NextIsLast(accounts: seq<Account>, n: nat, places: seq<Place>, here: Place)
    requires accounts != [] && KeptUpTo(accounts, n, places) && here == Place(|accounts| - 1, n) && Kept(accounts, here)
    ensures var more := places + [here];
            && (forall m | 0 <= m < |more| :: Kept(accounts, more[m]) && (more[m].account + 1 == |accounts| ==> more[m].item < n + 1))
            && InOrder(more)
  {
    forall m | 0 <= m < |places| ensures Before(places[m], here) {
      assert Kept(accounts, places[m]);
    }
  }

  lemma NextPlace(accounts: seq<Account>, n: nat, places: seq<Place>) returns (more: seq<Place>)
    requires accounts != [] && KeptUpTo(accounts, n, places)
    ensures var at := Place(|accounts| - 1, n); more == if Kept(accounts, at) then places + [at] else places
    ensures KeptUpTo(accounts, n + 1, more)
  {
    var here := Place(|accounts| - 1, n);
    more := if Kept(accounts, here) then places + [here] else places;
    if Kept(accounts, here) {
      NextIsLast(accounts, n, places, here);
    }
    forall at | Kept(accounts, at) && (at.account + 1 == |accounts| ==> at.item < n + 1) ensures at in more {
      NextIsIn(accounts, n, places, more, at);
    }
  }

  function LineIfKept(accounts: seq<Account>, at: Place): seq<string> {
    if Kept(accounts, at) then [LineOf(ItemAt(accounts, at))] else []
  }

  lemma NextItem(accounts: seq<Account>, n: nat, places: seq<Place>, lines: seq<string>) returns (more: seq<Place>)
    requires accounts != [] && KeptUpTo(accounts, n, places) && LinesAt(accounts, places, lines)
    ensures KeptUpTo(accounts, n + 1, more)
    ensures LinesAt(accounts, more, lines + LineIfKept(accounts, Place(|accounts| - 1, n)))
  {
    more := NextPlace(accounts, n, places);
  }

  /** The last account is root's, and lists these. */
  predicate RootsLast(accounts: seq<Account>, items: seq<Item>) {
    accounts != [] && accounts[|accounts| - 1] == Account(Some("root"), Some(items))
  }

  lemma ItemLinesNext(accounts: seq<Account>, items: seq<Item>, n: nat, lines: seq<string>)
    requires RootsLast(accounts, items) && n < |items|
    ensures lines + ItemLines(items[..n + 1]) == lines + ItemLines(items[..n]) + LineIfKept(accounts, Place(|accounts| - 1, n))
  {
    assert items[..n + 1][..n] == items[..n];
  }

  lemma {:induction false} PlacesOfItems(accounts: seq<Account>, items: seq<Item>, n: nat, before: seq<Place>, lines: seq<string>)
    returns (places: seq<Place>)
    requires RootsLast(accounts, items) && n <= |items| && KeptUpTo(accounts, 0, before) && LinesAt(accounts, before, lines)
    ensures KeptUpTo(accounts, n, places) && LinesAt(accounts, places, lines + ItemLines(items[..n]))
  {
    if n == 0 {
      places := before;
      assert lines + ItemLines(items[..0]) == lines;
    } else {
      places := PlacesOfItems(accounts, items, n - 1, before, lines);
      ItemLinesNext(accounts, items, n - 1, lines);
      places := NextItem(accounts, n - 1, places, lines + ItemLines(items[..n - 1]));
    }
  }

  lemma {:induction false} PlacesOfAccounts(accounts: seq<Account>) returns (places: seq<Place>)
    ensures AllKept(accounts, places) && LinesAt(accounts, places, AccountLines(accounts))
  {
    if accounts == [] {
      places := [];
    } else {
      var i := |accounts| - 1;
      var before := PlacesOfAccounts(accounts[..i]);
      forall at ensures Kept(accounts[..i], at) <==> Kept(accounts, at) && at.account < i {
        if at.account < i {
          assert accounts[..i][at.account] == accounts[at.account];
        }
      }
      places := before;
      if accounts[i].account == Some("root") && accounts[i].items.Some? {
        var items := accounts[i].items.value;
        places := PlacesOfItems(accounts, items, |items|, before, AccountLines(accounts[..i]));
        assert items[..|items|] == items;
      }
    }
  }

  lemma AccountLinesAreRoots(accounts: seq<Account>)
    ensures RootsLines(accounts, AccountLines(accounts))
  {
    var places := PlacesOfAccounts(accounts);
  }

  ghost predicate SamePlaces(p: seq<Place>, q: seq<Place>) {
    forall at :: at in p <==> at in q
  }

  lemma LastIsLatest(p: seq<Place>)
    requires InOrder(p) && p != []
    ensures var last := p[|p| - 1]; forall at :: at in p[..|p| - 1] <==> at in p && at != last
    ensures forall at | at in p && at != p[|p| - 1] :: Before(at, p[|p| - 1])
  {
    assert p == p[..|p| - 1] + [p[|p| - 1]];
    forall at | at in p && at != p[|p| - 1] ensures Before(at, p[|p| - 1]) {
      var m :| 0 <= m < |p| && p[m] == at;
    }
  }

  lemma LastPlaces(p: seq<Place>, q: seq<Place>)
    requires InOrder(p) && InOrder(q) && SamePlaces(p, q) && p != [] && q != []
    ensures p[|p| - 1] == q[|q| - 1] && SamePlaces(p[..|p| - 1], q[..|q| - 1])
  {
    LastIsLatest(p);
    LastIsLatest(q);
    assert p[|p| - 1] in q && q[|q| - 1] in p;
    var before, others := p[..|p| - 1], q[..|q| - 1];
    forall at ensures at in before <==> at in others {
      assert at in p <==> at in q;
    }
  }

  lemma {:induction false} OneOrder(p: seq<Place>, q: seq<Place>)
    requires InOrder(p) && InOrder(q) && SamePlaces(p, q)
    ensures p == q
  {
    assert (p != [] ==> p[0] in p) && (q != [] ==> q[0] in q);
    if p != [] && q != [] {
      LastPlaces(p, q);
      OneOrder(p[..|p| - 1], q[..|q| - 1]);
      assert p == p[..|p| - 1] + [p[|p| - 1]] && q == q[..|q| - 1] + [q[|q| - 1]];
    }
  }

  /** The accounts determine root's lines: they are the ones that are written. */
  lemma RootsLinesIff(accounts: seq<Account>, lines: seq<string>)
    ensures RootsLines(accounts, lines) <==> lines == AccountLines(accounts)
  {
    var places := PlacesOfAccounts(accounts);
    if RootsLines(accounts, lines) {
      var others :| AllKept(accounts, others) && LinesAt(accounts, others, lines);
      OneOrder(places, others);
    }
  }

  /* ----- what a set request leaves in the files ----- */

  ghost predicate HasLines(d: Disk, file: Path, lines: seq<string>) {
    file in d.files && d.files[file] == FileOf(lines)
  }

  /** The file holds root's lines of the accounts, and nothing else. */
  ghost predicate HasRootsLines(d: Disk, file: Path, accounts: seq<Account>) {
    exists lines :: RootsLines(accounts, lines) && HasLines(d, file, lines)
  }

  /** What has been written for a key is in that key's own file. */
  lemma WrittenWhere(d: Disk, e: Entry)
    ensures e.CaKeys? ==> (Holds(d, e) <==> HasLines(d, CA_FILE, e.keys))
    ensures e.AccountKeys? ==> (Holds(d, e) <==> HasRootsLines(d, KEYS_FILE, e.accounts))
    ensures e.AccountUsers? ==> (Holds(d, e) <==> HasRootsLines(d, USERS_FILE, e.accounts))
  {
    if e.AccountKeys? || e.AccountUsers? {
      forall lines ensures RootsLines(e.accounts, lines) <==> lines == AccountLines(e.accounts) {
        RootsLinesIff(e.accounts, lines);
      }
      assert RootsLines(e.accounts, AccountLines(e.accounts));
    }
  }

  predicate Untouched(a: Disk, b: Disk, file: Path) { SameIn(a.files, file, b.files, file) }

  /**
    A set request writes each of its keys to that key's file and no other.  Whatever fails, the key
    file of the CA changes only if the request has SshCaPublicKey, root's authorized keys only if it has
    SshAccountKeys and root's authorized users only if it has SshAccountUsers; and when the answer is 0,
    the file of the last recognised key has exactly the lines that key asks for.
  */
  lemma SetWritesEachKeysOwnFile(d: Disk, entries: seq<Entry>, faults: seq<PublishFaults>, i: nat)
    requires Valid(d) && d.checkpoint && OneEntryPerFile(entries)
    ensures var (after, r) := DoneSet(d, Entries(entries), faults);
            && ((forall e | e in entries :: !e.CaKeys?) ==> Untouched(d, after, CA_FILE))
            && ((forall e | e in entries :: !e.AccountKeys?) ==> Untouched(d, after, KEYS_FILE))
            && ((forall e | e in entries :: !e.AccountUsers?) ==> Untouched(d, after, USERS_FILE))
            && (r == Code(0) && LastRecognised(entries, i) ==>
                  match entries[i]
                  case CaKeys(keys) => HasLines(after, CA_FILE, keys)
                  case AccountKeys(accounts) => HasRootsLines(after, KEYS_FILE, accounts)
                  case AccountUsers(accounts) => HasRootsLines(after, USERS_FILE, accounts)
                  case Unknown => false)
  {
    var (after, r) := DoneSet(d, Entries(entries), faults);
    SetFollows(d, Entries(entries), faults);
    PathsOfFiles();
    assert forall f :: Same(d, Live(f), after, Live(f)) || PublishedBy(entries, after, f);
    assert Same(d, Live(Ca), after, Live(Ca)) || PublishedBy(entries, after, Ca);
    assert Same(d, Live(Keys), after, Live(Keys)) || PublishedBy(entries, after, Keys);
    assert Same(d, Live(Users), after, Live(Users)) || PublishedBy(entries, after, Users);
    if r == Code(0) && LastRecognised(entries, i) {
      var codes :| Applied(d, after, entries, codes) && r.n == LastCode(entries, codes);
      SetCodeIsTheLastKeys(entries, codes);
      WrittenWhere(after, entries[i]);
    }
  }
}
