/** Collecting the folder names of a Maildir and creating the mailboxes that are missing. */
module MailboxCreation {
  import opened Wrappers

  type Path = seq<string>

  // A path component of a folder name; blank ones are spelled with a dot.
  function Component(raw: string, trim: string -> string): string {
    if trim(raw) == "" then "." else trim(raw)
  }

  function Components(raw: seq<string>, trim: string -> string): (p: Path)
    ensures |p| == |raw|
  {
    seq(|raw|, i requires 0 <= i < |raw| => Component(raw[i], trim))
  }

  // The parent of the i-th name, if it has one, is at an earlier position.
  ghost predicate ParentBefore(names: seq<Path>, i: nat)
    requires i < |names|
  {
    |names[i]| > 1 ==> exists j :: 0 <= j < i && names[j] == names[i][..|names[i]| - 1]
  }

  ghost predicate ParentsFirst(names: seq<Path>) {
    forall i | 0 <= i < |names| :: ParentBefore(names, i)
  }

  // p names the folder or one of its ancestors.
  predicate IsPrefixName(p: Path, name: Path) {
    1 <= |p| && p <= name
  }

  // p spells the first parts of a folder name, trimmed, a blank part as a dot.
  predicate Spells(p: Path, raw: seq<string>, trim: string -> string) {
    1 <= |p| <= |raw| && forall i | 0 <= i < |p| :: p[i] == if trim(raw[i]) == "" then "." else trim(raw[i])
  }

  lemma SpellsIs(p: Path, raw: seq<string>, trim: string -> string)
    ensures Spells(p, raw, trim) <==> IsPrefixName(p, Components(raw, trim))
  {
  }

  ghost predicate NamedBy(folders: seq<Option<seq<string>>>, trim: string -> string, p: Path) {
    || (p == [] && None in folders)
    || exists f :: f in folders && f.Some? && Spells(p, f.value, trim)
  }

  predicate Distinct(names: seq<Path>) {
    forall i, j | 0 <= i < j < |names| && names[i] != [] :: names[i] != names[j]
  }

  lemma ParentsFirstSnoc(names: seq<Path>, p: Path)
    requires ParentsFirst(names) && (|p| > 1 ==> p[..|p| - 1] in names)
    ensures ParentsFirst(names + [p])
  {
    var names' := names + [p];
    forall i | 0 <= i < |names'| ensures ParentBefore(names', i) {
      if i < |names| {
        assert ParentBefore(names, i);
        if |names[i]| > 1 {
          var j :| 0 <= j < i && names[j] == names[i][..|names[i]| - 1];
          assert names'[j] == names[j];
        }
      } else if |p| > 1 {
        var j :| 0 <= j < |names| && names[j] == p[..|p| - 1];
        assert names'[j] == names[j];
      }
    }
  }

  function Elements(names: seq<Path>): set<Path> {
    set p | p in names
  }

  // The first i ancestors-or-self of a folder.
  function Ancestors(whole: Path, i: nat): (r: set<Path>)
    requires i <= |whole|
    ensures forall p :: p in r <==> IsPrefixName(p, whole) && |p| <= i
  {
    if i == 0 then {} else
      assert forall p: Path | p <= whole && |p| == i :: p == whole[..i];
      Ancestors(whole, i - 1) + {whole[..i]}
  }

  method AddIfMissing(names: seq<Path>, p: Path) returns (names': seq<Path>)
    requires ParentsFirst(names) && Distinct(names) && p != []
    requires |p| > 1 ==> p[..|p| - 1] in names
    ensures ParentsFirst(names') && Distinct(names')
    ensures names' == if p in names then names else names + [p]
  {
    names' := names;
    if p !in names {
      ParentsFirstSnoc(names, p);
      names' := names + [p];
    }
  }

  lemma {:induction false} PrefixesListed(names: seq<Path>, whole: Path, i: nat)
    requires ParentsFirst(names) && whole in names && 1 <= i <= |whole|
    ensures whole[..i] in names
    decreases |whole| - i
  {
    if i == |whole| {
      assert whole[..i] == whole;
    } else {
      PrefixesListed(names, whole, i + 1);
      var k :| 0 <= k < |names| && names[k] == whole[..i + 1];
      assert ParentBefore(names, k) && whole[..i + 1][..i] == whole[..i];
    }
  }

  // The first i parts of a folder are listed; the folder itself is the last name unless it was listed before.
  ghost predicate Adding(names: seq<Path>, names': seq<Path>, whole: Path, i: nat)
    requires i <= |whole|
  {
    && names <= names' && ParentsFirst(names') && Distinct(names')
    && Elements(names') == Elements(names) + Ancestors(whole, i)
    && (whole in names ==> names' == names)
    && (whole !in names && i == |whole| > 0 ==> names < names' && names'[|names'| - 1] == whole)
  }

  lemma ElementsSnoc(names: seq<Path>, p: Path)
    ensures Elements(names + [p]) == Elements(names) + {p}
  {
  }

  lemma AddingNext(names: seq<Path>, names': seq<Path>, whole: Path, i: nat, next: seq<Path>)
    requires i < |whole| && Adding(names, names', whole, i) && ParentsFirst(names) && ParentsFirst(next) && Distinct(next)
    requires next == if whole[..i + 1] in names' then names' else names' + [whole[..i + 1]]
    ensures Adding(names, next, whole, i + 1)
  {
    ElementsSnoc(names', whole[..i + 1]);
    if whole in names {
      PrefixesListed(names, whole, i + 1);
    } else if i + 1 == |whole| {
      assert whole[..i + 1] == whole && whole !in Ancestors(whole, i) && whole !in Elements(names');
    }
  }

  /** Adds a folder and those of its ancestors that are not listed yet, the folder last. */
  method AddFolder(names: seq<Path>, raw: seq<string>, trim: string -> string) returns (names': seq<Path>)
    requires ParentsFirst(names) && Distinct(names) && raw != []
    ensures Adding(names, names', Components(raw, trim), |raw|)
  {
    names' := names;
    var folderParts: Path := [];
    ghost var whole := Components(raw, trim);
    for i := 0 to |raw|
      invariant folderParts == whole[..i]
      invariant Adding(names, names', whole, i)
    {
      ParentListed(names', whole, i);
      folderParts := folderParts + [Component(raw[i], trim)];
      assert folderParts == whole[..i + 1];
      var next := AddIfMissing(names', folderParts);
      AddingNext(names, names', whole, i, next);
      names' := next;
    }
  }

  lemma ParentListed(names: seq<Path>, whole: Path, i: nat)
    requires i < |whole| && Ancestors(whole, i) <= Elements(names)
    ensures |whole[..i + 1]| > 1 ==> whole[..i + 1][..i] in names
  {
    if i > 0 {
      assert whole[..i + 1][..i] == whole[..i];
      assert IsPrefixName(whole[..i], whole);
      assert whole[..i] in Ancestors(whole, i);
    }
  }

  // What adding folder i does to the names and the slots: one slot for each new name, and the folder in the last slot.
  ghost predicate Added(names: seq<Path>, slots: seq<Option<nat>>, names': seq<Path>, slots': seq<Option<nat>>, whole: Path, again: bool, i: nat) {
    && |slots| == |names| && |slots'| == |names'| && names' != [] && slots'[|slots'| - 1] == Some(i)
    && (forall k | 0 <= k < |slots'| - 1 :: slots'[k] == if k < |slots| then slots[k] else None)
    && (if again then names' == names else names < names' && names'[|names'| - 1] == whole)
  }

  method CollectFolder(names: seq<Path>, slots: seq<Option<nat>>, raw: seq<string>, trim: string -> string, i: nat)
    returns (names': seq<Path>, slots': seq<Option<nat>>)
    requires ParentsFirst(names) && Distinct(names) && raw != [] && |slots| == |names|
    ensures Adding(names, names', Components(raw, trim), |raw|)
    ensures Added(names, slots, names', slots', Components(raw, trim), Components(raw, trim) in names, i)
  {
    names' := AddFolder(names, raw, trim);
    slots' := slots + seq(|names'| - |names|, j => None);
    slots' := slots'[|slots'| - 1 := Some(i)];
  }

  // The name a folder is to be found under.
  function NameOf(folder: Option<seq<string>>, trim: string -> string): Path {
    if folder.None? then [] else Components(folder.value, trim)
  }

  // The folder comes after one that already named it, as itself or as a folder above.
  ghost predicate Repeats(folders: seq<Option<seq<string>>>, i: nat, trim: string -> string)
    requires i < |folders|
  {
    folders[i].Some? && exists j | 0 <= j < i :: folders[j].Some? && NameOf(folders[i], trim) <= NameOf(folders[j], trim)
  }

  ghost predicate Filed(folders: seq<Option<seq<string>>>, names: seq<Path>, slots: seq<Option<nat>>, i: nat, trim: string -> string)
    requires i < |folders| && |slots| == |names|
  {
    exists k | 0 <= k < |slots| :: slots[k] == Some(i) && names[k] == NameOf(folders[i], trim)
  }

  // Every folder is kept, under its own name.
  ghost predicate AllFiled(folders: seq<Option<seq<string>>>, names: seq<Path>, slots: seq<Option<nat>>, trim: string -> string)
    requires |slots| == |names|
  {
    forall i | 0 <= i < |folders| :: Filed(folders, names, slots, i, trim)
  }

  // Folders below n hold at most one slot each, the latest of them the last one.
  predicate Holding(slots: seq<Option<nat>>, n: nat) {
    && (n > 0 ==> slots != [] && slots[|slots| - 1] == Some(n - 1))
    && (forall k | 0 <= k < |slots| && slots[k].Some? :: slots[k].value < n)
    && (forall j, k | 0 <= j < k < |slots| && slots[j].Some? :: slots[j] != slots[k])
  }

  // After n folders: all are filed, or one that repeats has displaced another.
  ghost predicate Keeping(folders: seq<Option<seq<string>>>, n: nat, names: seq<Path>, slots: seq<Option<nat>>, trim: string -> string)
    requires n <= |folders| && |slots| == |names|
  {
    && Holding(slots, n)
    && ((forall i | 0 <= i < n :: !Repeats(folders, i, trim)) ==> forall i | 0 <= i < n :: Filed(folders, names, slots, i, trim))
    && ((exists i | 0 <= i < n :: Repeats(folders, i, trim)) ==> exists i | 0 <= i < n :: Some(i) !in slots)
  }

  lemma HoldingNext(names: seq<Path>, slots: seq<Option<nat>>, names': seq<Path>, slots': seq<Option<nat>>, whole: Path, again: bool, n: nat)
    requires Added(names, slots, names', slots', whole, again, n) && Holding(slots, n) && (again ==> n > 0)
    ensures Holding(slots', n + 1)
    ensures again ==> Some(n - 1) !in slots'
    ensures forall i: nat | i < n && Some(i) !in slots :: Some(i) !in slots'
  {
    forall i: nat | i < n && Some(i) !in slots ensures Some(i) !in slots' {
      assert forall k | 0 <= k < |slots'| - 1 && k < |slots| :: slots'[k] == slots[k] && slots[k] in slots;
    }
  }

  lemma FiledNext(folders: seq<Option<seq<string>>>, names: seq<Path>, slots: seq<Option<nat>>, names': seq<Path>, slots': seq<Option<nat>>,
                  whole: Path, n: nat, i: nat, trim: string -> string)
    requires Added(names, slots, names', slots', whole, false, n) && i < |folders|
    requires Filed(folders, names, slots, i, trim)
    ensures Filed(folders, names', slots', i, trim)
  {
    var k :| 0 <= k < |slots| && slots[k] == Some(i) && names[k] == NameOf(folders[i], trim);
    assert slots'[k] == Some(i) && names'[k] == names[k];
  }

  // A folder is listed before its turn exactly when it repeats.
  lemma RepeatsIs(folders: seq<Option<seq<string>>>, i: nat, trim: string -> string)
    requires i < |folders| && folders[i].Some? && folders[i].value != []
    ensures NamedBy(folders[..i], trim, NameOf(folders[i], trim)) <==> Repeats(folders, i, trim)
  {
    var whole := NameOf(folders[i], trim);
    if NamedBy(folders[..i], trim, whole) {
      var f :| f in folders[..i] && f.Some? && Spells(whole, f.value, trim);
      var j :| 0 <= j < i && folders[j] == f;
      SpellsIs(whole, f.value, trim);
    }
    if Repeats(folders, i, trim) {
      var j :| 0 <= j < i && folders[j].Some? && whole <= NameOf(folders[j], trim);
      SpellsIs(whole, folders[j].value, trim);
      assert folders[..i][j] == folders[j];
    }
  }

  lemma AllFiledNext(folders: seq<Option<seq<string>>>, n: nat, names: seq<Path>, slots: seq<Option<nat>>,
                     names': seq<Path>, slots': seq<Option<nat>>, whole: Path, trim: string -> string)
    requires n < |folders| && |slots| == |names| && forall i | 0 <= i < n :: Filed(folders, names, slots, i, trim)
    requires Added(names, slots, names', slots', whole, false, n) && whole == NameOf(folders[n], trim)
    ensures forall i | 0 <= i < n + 1 :: Filed(folders, names', slots', i, trim)
  {
    forall i | 0 <= i < n + 1 ensures Filed(folders, names', slots', i, trim) {
      if i < n {
        FiledNext(folders, names, slots, names', slots', whole, n, i, trim);
      } else {
        assert slots'[|slots'| - 1] == Some(i);
      }
    }
  }

  lemma KeepingNext(folders: seq<Option<seq<string>>>, n: nat, names: seq<Path>, slots: seq<Option<nat>>,
                    names': seq<Path>, slots': seq<Option<nat>>, whole: Path, again: bool, trim: string -> string)
    requires n < |folders| && |slots| == |names| && Keeping(folders, n, names, slots, trim)
    requires Added(names, slots, names', slots', whole, again, n) && whole == NameOf(folders[n], trim)
    requires again <==> Repeats(folders, n, trim)
    ensures Keeping(folders, n + 1, names', slots', trim)
  {
    HoldingNext(names, slots, names', slots', whole, again, n);
    if forall i | 0 <= i < n + 1 :: !Repeats(folders, i, trim) {
      AllFiledNext(folders, n, names, slots, names', slots', whole, trim);
    }
    if i :| 0 <= i < n + 1 && Repeats(folders, i, trim) {
      if again {
        assert Some(n - 1) !in slots';
      } else {
        assert 0 <= i < n && Repeats(folders, i, trim);
        var l :| 0 <= l < n && Some(l) !in slots;
        assert Some(l) !in slots';
      }
    }
  }

  lemma KeepingAll(folders: seq<Option<seq<string>>>, names: seq<Path>, slots: seq<Option<nat>>, trim: string -> string)
    requires |slots| == |names| && Keeping(folders, |folders|, names, slots, trim)
    ensures AllFiled(folders, names, slots, trim) <==> forall i | 0 <= i < |folders| :: !Repeats(folders, i, trim)
  {
    if !(forall i | 0 <= i < |folders| :: !Repeats(folders, i, trim)) {
      var l :| 0 <= l < |folders| && Some(l) !in slots;
      assert !Filed(folders, names, slots, l, trim);
    }
  }

  // The names and slots after n folders.
  ghost predicate Collected(folders: seq<Option<seq<string>>>, n: nat, names: seq<Path>, slots: seq<Option<nat>>, trim: string -> string)
    requires n <= |folders|
  {
    && ParentsFirst(names) && Distinct(names) && |slots| == |names|
    && (forall p :: p in names <==> NamedBy(folders[..n], trim, p))
    && Keeping(folders, n, names, slots, trim)
  }

  lemma NamesNext(folders: seq<Option<seq<string>>>, n: nat, names: seq<Path>, names': seq<Path>, trim: string -> string)
    requires n < |folders| && forall p :: p in names <==> NamedBy(folders[..n], trim, p)
    requires forall p :: p in names' <==> p in names || (if folders[n].Some? then IsPrefixName(p, NameOf(folders[n], trim)) else p == [])
    ensures forall p :: p in names' <==> NamedBy(folders[..n + 1], trim, p)
  {
    NamedBySnoc(folders[..n], folders[n], trim);
    assert folders[..n] + [folders[n]] == folders[..n + 1];
  }

  lemma ElementsAre(names: seq<Path>, names': seq<Path>, whole: Path)
    requires Elements(names') == Elements(names) + Ancestors(whole, |whole|)
    ensures forall p :: p in names' <==> p in names || IsPrefixName(p, whole)
  {
    forall p ensures p in names' <==> p in names || IsPrefixName(p, whole) {
      assert p in names' <==> p in Elements(names');
      assert p in names <==> p in Elements(names);
    }
  }

  lemma CollectedNext(folders: seq<Option<seq<string>>>, n: nat, names: seq<Path>, slots: seq<Option<nat>>,
                      names': seq<Path>, slots': seq<Option<nat>>, whole: Path, again: bool, trim: string -> string)
    requires n < |folders| && Collected(folders, n, names, slots, trim) && ParentsFirst(names') && Distinct(names')
    requires forall p :: p in names' <==> p in names || (if folders[n].Some? then IsPrefixName(p, whole) else p == [])
    requires Added(names, slots, names', slots', whole, again, n) && whole == NameOf(folders[n], trim)
    requires again <==> Repeats(folders, n, trim)
    ensures Collected(folders, n + 1, names', slots', trim)
  {
    NamesNext(folders, n, names, names', trim);
    KeepingNext(folders, n, names, slots, names', slots', whole, again, trim);
  }

  method CollectNext(ghost folders: seq<Option<seq<string>>>, folder: Option<seq<string>>, names: seq<Path>, slots: seq<Option<nat>>,
                     trim: string -> string, i: nat)
    returns (names': seq<Path>, slots': seq<Option<nat>>)
    requires i < |folders| && folder == folders[i] && (folder.Some? ==> folder.value != [])
    requires Collected(folders, i, names, slots, trim)
    ensures Collected(folders, i + 1, names', slots', trim)
  {
    ghost var whole := NameOf(folder, trim);
    if folder.Some? {
      RepeatsIs(folders, i, trim);
      names', slots' := CollectFolder(names, slots, folder.value, trim, i);
      ElementsAre(names, names', whole);
    } else {
      slots' := slots + [Some(i)];
      ParentsFirstSnoc(names, []);
      names' := names + [[]];
    }
    CollectedNext(folders, i, names, slots, names', slots', whole, folder.Some? && whole in names, trim);
  }

  /** The list of names to look up or create, with one slot per name. A folder goes into the last slot, so every
      folder is kept under its own name exactly when none comes after one that named it. */
  method CollectNames(folders: seq<Option<seq<string>>>, trim: string -> string) returns (names: seq<Path>, slots: seq<Option<nat>>)
    requires forall f | f in folders && f.Some? :: f.value != []
    ensures ParentsFirst(names) && Distinct(names) && |slots| == |names|
    ensures forall p :: p in names <==> NamedBy(folders, trim, p)
    ensures AllFiled(folders, names, slots, trim) <==> forall i | 0 <= i < |folders| :: !Repeats(folders, i, trim)
  {
    names, slots := [], [];
    for i := 0 to |folders|
      invariant Collected(folders, i, names, slots, trim)
    {
      names, slots := CollectNext(folders, folders[i], names, slots, trim, i);
    }
    assert folders[..|folders|] == folders;
    KeepingAll(folders, names, slots, trim);
  }

  /** `A.B` followed by `A`: the second folder displaces the first. */
  lemma ParentAfterChild(a: string, b: string, trim: string -> string)
    ensures Repeats([Some([a, b]), Some([a])], 1, trim)
  {
    var folders := [Some([a, b]), Some([a])];
    assert NameOf(folders[1], trim) <= NameOf(folders[0], trim);
  }

  lemma NamedBySnoc(folders: seq<Option<seq<string>>>, f: Option<seq<string>>, trim: string -> string)
    ensures forall p :: NamedBy(folders + [f], trim, p) <==>
              NamedBy(folders, trim, p) || (if f.Some? then IsPrefixName(p, Components(f.value, trim)) else p == [])
  {
    var all := folders + [f];
    assert f in all && forall g | g in folders :: g in all;
    assert forall g | g in all :: g in folders || g == f;
    if f.Some? {
      forall p ensures Spells(p, f.value, trim) <==> IsPrefixName(p, Components(f.value, trim)) {
        SpellsIs(p, f.value, trim);
      }
    }
  }

  datatype MailboxId = Existing(id: string) | Created(request: nat) | Unresolved

  datatype ParentRef = TopLevel | ById(id: string) | ByRequest(request: nat)

  datatype CreateRequest = CreateRequest(name: string, parent: ParentRef)

  /** The mailbox a request creates ends up at this path, given the paths of the existing ones. */
  ghost predicate CreatesAt(requests: seq<CreateRequest>, existing: map<Path, string>, k: nat, path: Path)
    decreases |path|
  {
    && k < |requests| && path != [] && requests[k].name == path[|path| - 1]
    && var above := path[..|path| - 1];
       match requests[k].parent
       case TopLevel => above == []
       case ById(id) => above != [] && above in existing && existing[above] == id
       case ByRequest(j) => j < k && CreatesAt(requests, existing, j, above)
  }

  // The identifier denotes the mailbox with this name.
  ghost predicate Denotes(id: MailboxId, requests: seq<CreateRequest>, existing: map<Path, string>, inbox: string, name: Path) {
    match id
    case Existing(s) => if name == [] then s == inbox else name in existing && existing[name] == s
    case Created(k) => CreatesAt(requests, existing, k, name) && name !in existing
    case Unresolved => false
  }

  lemma {:induction false} CreatesAtGrows(requests: seq<CreateRequest>, r: CreateRequest, existing: map<Path, string>, k: nat, path: Path)
    requires CreatesAt(requests, existing, k, path)
    ensures CreatesAt(requests + [r], existing, k, path)
    decreases |path|
  {
    if requests[k].parent.ByRequest? {
      CreatesAtGrows(requests, r, existing, requests[k].parent.request, path[..|path| - 1]);
    }
  }

  method FirstPosition(names: seq<Path>, p: Path) returns (k: nat)
    requires p in names
    ensures k < |names| && names[k] == p && forall j | 0 <= j < k :: names[j] != p
  {
    k := 0;
    while names[k] != p
      invariant 0 <= k < |names| && forall j | 0 <= j < k :: names[j] != p
      decreases |names| - k
    {
      k := k + 1;
    }
  }

  method LookUpExisting(names: seq<Path>, existing: map<Path, string>, inbox: string) returns (ids: seq<MailboxId>)
    ensures |ids| == |names|
    ensures forall i | 0 <= i < |names| ::
              ids[i] == if names[i] == [] then Existing(inbox)
                        else if names[i] in existing then Existing(existing[names[i]]) else Unresolved
  {
    ids := [];
    for i := 0 to |names|
      invariant |ids| == i
      invariant forall j | 0 <= j < i ::
                  ids[j] == if names[j] == [] then Existing(inbox)
                            else if names[j] in existing then Existing(existing[names[j]]) else Unresolved
    {
      if names[i] != [] {
        ids := ids + [if names[i] in existing then Existing(existing[names[i]]) else Unresolved];
      } else {
        ids := ids + [Existing(inbox)];
      }
    }
  }

  // The create request for a name whose parent, if it has one, is already resolved.
  lemma RequestFits(names: seq<Path>, ids: seq<MailboxId>, requests: seq<CreateRequest>, existing: map<Path, string>,
                    inbox: string, pos: nat, parentPos: nat, r: CreateRequest)
    requires pos < |names| && |ids| == |names| && names[pos] != []
    requires r.name == names[pos][|names[pos]| - 1]
    requires |names[pos]| == 1 ==> r.parent == TopLevel
    requires |names[pos]| > 1 ==>
               && parentPos < |names| && names[parentPos] == names[pos][..|names[pos]| - 1]
               && Denotes(ids[parentPos], requests, existing, inbox, names[parentPos])
               && r.parent == (match ids[parentPos]
                               case Existing(id) => ById(id)
                               case Created(k) => ByRequest(k)
                               case Unresolved => TopLevel)
    ensures CreatesAt(requests + [r], existing, |requests|, names[pos])
  {
    if |names[pos]| > 1 && ids[parentPos].Created? {
      CreatesAtGrows(requests, r, existing, ids[parentPos].request, names[parentPos]);
    }
  }

  ghost predicate Resolved(names: seq<Path>, ids: seq<MailboxId>, requests: seq<CreateRequest>, existing: map<Path, string>,
                           inbox: string, n: nat)
  {
    && |ids| == |names| && n <= |names|
    && (forall i | 0 <= i < n :: Denotes(ids[i], requests, existing, inbox, names[i]))
    && (forall i | n <= i < |names| ::
          if ids[i].Unresolved? then names[i] != [] && names[i] !in existing
          else Denotes(ids[i], requests, existing, inbox, names[i]) && ids[i].Existing?)
  }

  lemma ResolveNext(names: seq<Path>, ids: seq<MailboxId>, requests: seq<CreateRequest>, existing: map<Path, string>,
                    inbox: string, pos: nat, r: CreateRequest)
    requires Resolved(names, ids, requests, existing, inbox, pos) && pos < |names| && ids[pos].Unresolved?
    requires CreatesAt(requests + [r], existing, |requests|, names[pos])
    ensures Resolved(names, ids[pos := Created(|requests|)], requests + [r], existing, inbox, pos + 1)
  {
    forall i | 0 <= i < pos ensures Denotes(ids[i], requests + [r], existing, inbox, names[i]) {
      assert Denotes(ids[i], requests, existing, inbox, names[i]);
      if ids[i].Created? {
        CreatesAtGrows(requests, r, existing, ids[i].request, names[i]);
      }
    }
  }

  // Requests are issued in list order, each for one name.
  ghost predicate OneEach(ids: seq<MailboxId>, count: nat) {
    && (forall i, j | 0 <= i < j < |ids| && ids[i].Created? && ids[j].Created? :: ids[i].request < ids[j].request)
    && (forall i | 0 <= i < |ids| && ids[i].Created? :: ids[i].request < count)
    && (forall k | 0 <= k < count :: Created(k) in ids)
  }

  lemma OneEachNext(ids: seq<MailboxId>, count: nat, pos: nat)
    requires OneEach(ids, count) && pos < |ids| && ids[pos].Unresolved?
    requires forall i | pos <= i < |ids| :: !ids[i].Created?
    ensures OneEach(ids[pos := Created(count)], count + 1)
  {
    var ids' := ids[pos := Created(count)];
    forall k | 0 <= k < count + 1 ensures Created(k) in ids' {
      if k == count {
        assert ids'[pos] == Created(k);
      } else {
        var i :| 0 <= i < |ids| && ids[i] == Created(k);
        assert ids'[i] == Created(k);
      }
    }
  }

  /** Creates what is missing: the parent of each new mailbox is always listed and already resolved, no
      name stays unresolved, and every identifier denotes the mailbox of its own name. */
  method CreateMissing(names: seq<Path>, existing: map<Path, string>, inbox: string)
    returns (ids: seq<MailboxId>, requests: seq<CreateRequest>)
    requires ParentsFirst(names)
    ensures |ids| == |names|
    ensures forall i | 0 <= i < |names| :: Denotes(ids[i], requests, existing, inbox, names[i])
    ensures OneEach(ids, |requests|)
  {
    ids := LookUpExisting(names, existing, inbox);
    requests := [];
    for pos := 0 to |names|
      invariant Resolved(names, ids, requests, existing, inbox, pos)
      invariant OneEach(ids, |requests|)
    {
      if ids[pos].Unresolved? {
        var name := names[pos];
        var parent := TopLevel;
        ghost var parentPos := 0;
        if |name| > 1 {
          assert ParentBefore(names, pos);
          var p := FirstPosition(names, name[..|name| - 1]);
          assert p < pos && Denotes(ids[p], requests, existing, inbox, names[p]);
          match ids[p] {
            case Existing(id) => parent := ById(id);
            case Created(k) => parent := ByRequest(k);
            case Unresolved => assert false;
          }
          parentPos := p;
        }
        var r := CreateRequest(name[|name| - 1], parent);
        RequestFits(names, ids, requests, existing, inbox, pos, parentPos, r);
        ResolveNext(names, ids, requests, existing, inbox, pos, r);
        OneEachNext(ids, |requests|, pos);
        ids := ids[pos := Created(|requests|)];
        requests := requests + [r];
      }
    }
  }
}
