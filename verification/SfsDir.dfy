/** The root directory, read off the flat contents of its file: entries, names and link counts
    (sfs_dir_* in os161/kern/fs/sfs/sfs_vnode.c). */
module SfsDir {
  import opened Words
  import opened SfsLayout

  /** A C string: bytes before the terminating NUL. */
  type Name = n: seq<byte> | forall k :: 0 <= k < |n| ==> n[k] != 0

  datatype DirEntRec = DirEntRec(ino: u32, name: seq<byte>)
  type DirEnt = e: DirEntRec | |e.name| == NAMELEN witness DirEntRec(0, Zeros(NAMELEN))

  function PutDir(e: DirEnt): (b: seq<byte>)
    ensures |b| == DIRSIZE
  {
    PutWords([e.ino]) + e.name
  }

  function GetDir(b: seq<byte>): DirEnt
    requires |b| == DIRSIZE
  {
    DirEntRec(WordAt(b, 0), b[4..])
  }

  /** An entry begins with the inode number; the name follows. */
  lemma DirLayout(e: DirEnt)
    ensures var b := PutDir(e);
      ((b[0] as int * 256 + b[1]) * 256 + b[2]) * 256 + b[3] == e.ino && b[4..64] == e.name
  {
    BytesAt([e.ino], 0);
  }

  lemma DirRoundTrip(e: DirEnt)
    ensures GetDir(PutDir(e)) == e
  {
    var hd := PutWords([e.ino]);
    WordsRoundTrip([e.ino]);
    assert GetWords(hd)[0] == e.ino;
    WordAtPrefix(hd, e.name, 0);
    assert (hd + e.name)[4..] == e.name;
  }

  function CStr(s: seq<byte>): Name {
    if |s| == 0 || s[0] == 0 then [] else [s[0]] + CStr(s[1..])
  }

  /** A name as it is stored: padded with NULs. */
  function Pad(n: Name): (r: seq<byte>)
    requires |n| < NAMELEN
    ensures |r| == NAMELEN
  {
    n + Zeros(NAMELEN - |n|)
  }

  lemma {:induction false} CStrPad(n: Name, m: nat)
    ensures CStr(n + Zeros(m)) == n
  {
    if |n| == 0 {
      assert n + Zeros(m) == Zeros(m);
    } else {
      var rest: Name := n[1..];
      CStrPad(rest, m);
      assert (n + Zeros(m))[1..] == rest + Zeros(m);
      assert [n[0]] + rest == n;
    }
  }

  // ---------------------------------------------------------------- entries

  const MAXENTRIES := 1144

  function NEnt(d: FileView): nat {
    d.size / DIRSIZE
  }

  function Entry(d: FileView, k: nat): DirEnt
    requires |d.bytes| == MAXFILE && k < MAXENTRIES
  {
    GetDir(d.bytes[k * DIRSIZE..k * DIRSIZE + DIRSIZE])
  }

  /** The name in slot `k`; the code forces a NUL into the last byte before comparing. */
  function NameAt(d: FileView, k: nat): Name
    requires |d.bytes| == MAXFILE && k < MAXENTRIES
  {
    CStr(Entry(d, k).name[..NAMELEN - 1])
  }

  predicate Used(d: FileView, k: nat)
    requires |d.bytes| == MAXFILE && k < MAXENTRIES
  {
    Entry(d, k).ino != NOINO
  }

  ghost predicate IsDir(d: FileView) {
    |d.bytes| == MAXFILE && d.typ == TYPE_DIR && d.size % DIRSIZE == 0 && d.size <= MAXFILE
  }

  lemma NEntBound(d: FileView)
    requires IsDir(d)
    ensures NEnt(d) <= MAXENTRIES && d.size == NEnt(d) * DIRSIZE
  {
  }

  /** The inode numbers of all slots, in order. */
  function Inos(d: FileView): (r: seq<nat>)
    requires |d.bytes| == MAXFILE && NEnt(d) <= MAXENTRIES
    ensures |r| == NEnt(d)
  {
    seq(NEnt(d), k requires 0 <= k < NEnt(d) => Entry(d, k).ino)
  }

  // ---------------------------------------------------------------- invariants

  /** Each name appears in at most one slot. */
  ghost predicate NamesUnique(d: FileView)
    requires |d.bytes| == MAXFILE && NEnt(d) <= MAXENTRIES
  {
    forall j, k :: 0 <= j < k < NEnt(d) && Used(d, j) && Used(d, k) ==> NameAt(d, j) != NameAt(d, k)
  }

  /** The number of slots that name inode `i`, and one for the root itself. */
  ghost function LinksTo(d: FileView, i: nat): nat
    requires |d.bytes| == MAXFILE && NEnt(d) <= MAXENTRIES
  {
    multiset(Inos(d))[i] + if i == ROOT_LOCATION then 1 else 0
  }

  /** The directory invariant, over the files alone. */
  ghost predicate DirOk(v: View) {
    && ROOT_LOCATION in v && IsDir(v[ROOT_LOCATION]) && NEnt(v[ROOT_LOCATION]) <= MAXENTRIES
    && (forall i :: i in v ==> |v[i].bytes| == MAXFILE && (i != ROOT_LOCATION ==> v[i].typ == TYPE_FILE))
    && NOINO !in v
    && NamesUnique(v[ROOT_LOCATION])
    && (forall k :: 0 <= k < NEnt(v[ROOT_LOCATION]) && Used(v[ROOT_LOCATION], k) ==>
         Entry(v[ROOT_LOCATION], k).ino in v)
    && (forall i :: i in v ==> v[i].links == LinksTo(v[ROOT_LOCATION], i))
    && (forall i :: i in v ==> v[i].refs > 0 || v[i].links > 0)
  }

  /** The directory as a map from names to inodes. */
  ghost function DirMap(d: FileView): map<Name, nat>
    requires |d.bytes| == MAXFILE && NEnt(d) <= MAXENTRIES && NamesUnique(d)
  {
    map k: nat | 0 <= k < NEnt(d) && Used(d, k) :: NameAt(d, k) := Entry(d, k).ino
  }

  // ---------------------------------------------------------------- writing one slot

  /** The directory after `e` is written into slot `k`. */
  ghost function SetSlot(d: FileView, k: nat, e: DirEnt): (r: FileView)
    requires |d.bytes| == MAXFILE && k < MAXENTRIES
    ensures |r.bytes| == MAXFILE
  {
    d.(bytes := Splice(d.bytes, k * DIRSIZE, PutDir(e)),
       size := if k * DIRSIZE + DIRSIZE > d.size then k * DIRSIZE + DIRSIZE else d.size)
  }

  /** Writing a slot changes that slot and no other. */
  lemma SetSlotEntries(d: FileView, k: nat, e: DirEnt, j: nat)
    requires |d.bytes| == MAXFILE && k < MAXENTRIES && j < MAXENTRIES
    ensures Entry(SetSlot(d, k, e), j) == if j == k then e else Entry(d, j)
  {
    hide GetDir, PutDir;
    var a := Splice(d.bytes, k * DIRSIZE, PutDir(e));
    if j == k {
      assert a[k * DIRSIZE..k * DIRSIZE + DIRSIZE] == PutDir(e);
      DirRoundTrip(e);
    } else {
      assert j < k || j > k;
      assert a[j * DIRSIZE..j * DIRSIZE + DIRSIZE] == d.bytes[j * DIRSIZE..j * DIRSIZE + DIRSIZE];
    }
  }

  lemma SetSlotCount(d: FileView, k: nat, e: DirEnt)
    requires IsDir(d) && k <= NEnt(d) && k < MAXENTRIES
    ensures IsDir(SetSlot(d, k, e)) && NEnt(SetSlot(d, k, e)) == if k == NEnt(d) then NEnt(d) + 1 else NEnt(d)
    ensures NEnt(d) <= MAXENTRIES && NEnt(SetSlot(d, k, e)) <= MAXENTRIES
    ensures Inos(SetSlot(d, k, e)) == if k == NEnt(d) then Inos(d) + [e.ino] else Inos(d)[k := e.ino]
  {
    hide Entry, PutDir, Splice;
    NEntBound(d);
    var d' := SetSlot(d, k, e);
    assert d'.size == if k == NEnt(d) then d.size + DIRSIZE else d.size;
    assert NEnt(d') == if k == NEnt(d) then NEnt(d) + 1 else NEnt(d);
    forall j | 0 <= j < NEnt(d')
      ensures Entry(d', j).ino == if j == k then e.ino else Inos(d)[j]
    {
      SetSlotEntries(d, k, e, j);
    }
  }

  lemma SetSlotLinks(d: FileView, k: nat, e: DirEnt, i: nat)
    requires IsDir(d) && k <= NEnt(d) <= MAXENTRIES && k < MAXENTRIES
    ensures NEnt(SetSlot(d, k, e)) <= MAXENTRIES
    ensures LinksTo(SetSlot(d, k, e), i)
         == LinksTo(d, i) + (if e.ino == i then 1 else 0) - (if k < NEnt(d) && Entry(d, k).ino == i then 1 else 0)
  {
    hide Entry, PutDir, Splice, SetSlot;
    SetSlotCount(d, k, e);
    var s := Inos(d);
    if k < NEnt(d) {
      assert s == s[..k] + [s[k]] + s[k + 1..];
      assert s[k := e.ino] == s[..k] + [e.ino] + s[k + 1..];
    }
  }

  // ---------------------------------------------------------------- links

  function NewEntry(name: Name, ino: u32): DirEnt
    requires |name| < NAMELEN
  {
    DirEntRec(ino, Pad(name))
  }

  function NoEntry(): DirEnt {
    DirEntRec(NOINO, Zeros(NAMELEN))
  }

  lemma NewEntryName(name: Name, ino: u32)
    requires |name| < NAMELEN
    ensures CStr(NewEntry(name, ino).name[..NAMELEN - 1]) == name
  {
    assert Pad(name)[..NAMELEN - 1] == name + Zeros(NAMELEN - 1 - |name|);
    CStrPad(name, NAMELEN - 1 - |name|);
  }

  ghost function WithRoot(v: View, d: FileView): View {
    v[ROOT_LOCATION := d]
  }

  ghost function WithLinks(v: View, i: nat, delta: int): View
    requires i in v && v[i].links + delta >= 0
  {
    v[i := v[i].(links := v[i].links + delta)]
  }

  /** The files after `name` is linked to inode `i` in slot `k`. */
  ghost function LinkView(v: View, k: nat, name: Name, i: u32): View
    requires DirOk(v) && i in v && |name| < NAMELEN && k < MAXENTRIES
  {
    WithLinks(WithRoot(v, SetSlot(v[ROOT_LOCATION], k, NewEntry(name, i))), i, 1)
  }

  /** The files after slot `k` is cleared. */
  ghost function UnlinkView(v: View, k: nat): View
    requires DirOk(v) && k < NEnt(v[ROOT_LOCATION]) && Used(v[ROOT_LOCATION], k)
      && v[Entry(v[ROOT_LOCATION], k).ino].links > 0
  {
    WithLinks(WithRoot(v, SetSlot(v[ROOT_LOCATION], k, NoEntry())), Entry(v[ROOT_LOCATION], k).ino, -1)
  }

  /** A used slot counts towards its inode's links, so the link count is positive. */
  lemma UsedHasLink(v: View, k: nat)
    requires DirOk(v) && k < NEnt(v[ROOT_LOCATION]) && Used(v[ROOT_LOCATION], k)
    ensures Entry(v[ROOT_LOCATION], k).ino in v && v[Entry(v[ROOT_LOCATION], k).ino].links > 0
  {
    hide Entry, CStr, NamesUnique;
    var d := v[ROOT_LOCATION];
    assert Inos(d)[k] == Entry(d, k).ino;
    assert Entry(d, k).ino in multiset(Inos(d));
  }

  /** Link counts fit the 16 bits the inode has for them. */
  lemma LinksFit(v: View, i: nat)
    requires DirOk(v) && i in v
    ensures v[i].links <= MAXENTRIES + 1
  {
    hide Entry, CStr, NamesUnique, IsDir;
    var d := v[ROOT_LOCATION];
    assert |multiset(Inos(d))| == |Inos(d)|;
    MultiplicityBound(multiset(Inos(d)), i);
  }

  lemma MultiplicityBound(m: multiset<nat>, i: nat)
    ensures m[i] <= |m|
  {
    var rest := m[i := 0];
    assert m == rest[i := m[i]];
  }

  lemma SlotNames(d: FileView, k: nat, e: DirEnt)
    requires IsDir(d) && k <= NEnt(d) <= MAXENTRIES && k < MAXENTRIES
    ensures forall j :: 0 <= j < MAXENTRIES ==>
              Entry(SetSlot(d, k, e), j) == (if j == k then e else Entry(d, j))
              && (Used(SetSlot(d, k, e), j) <==> if j == k then e.ino != NOINO else Used(d, j))
              && NameAt(SetSlot(d, k, e), j) == if j == k then CStr(e.name[..NAMELEN - 1]) else NameAt(d, j)
  {
    hide SetSlot, CStr, GetDir;
    forall j | 0 <= j < MAXENTRIES
      ensures Entry(SetSlot(d, k, e), j) == if j == k then e else Entry(d, j)
    {
      SetSlotEntries(d, k, e, j);
    }
  }

  /** Only the bytes and the size of a directory matter. */
  lemma SameEntries(d: FileView, c: FileView)
    requires IsDir(d) && NEnt(d) <= MAXENTRIES && c.bytes == d.bytes && c.size == d.size && c.typ == d.typ
    ensures IsDir(c) && NEnt(c) == NEnt(d)
    ensures forall k :: 0 <= k < MAXENTRIES ==>
      Entry(c, k) == Entry(d, k) && NameAt(c, k) == NameAt(d, k) && (Used(c, k) <==> Used(d, k))
    ensures forall i :: LinksTo(c, i) == LinksTo(d, i)
    ensures NamesUnique(c) <==> NamesUnique(d)
    ensures NamesUnique(d) ==> DirMap(c) == DirMap(d)
  {
    hide GetDir, CStr;
    assert Inos(c) == Inos(d);
    forall k | 0 <= k < MAXENTRIES
      ensures Entry(c, k) == Entry(d, k) && NameAt(c, k) == NameAt(d, k) && (Used(c, k) <==> Used(d, k))
    {
    }
  }

  /** Directory `c` is directory `d` with slot `k` replaced by entry `e`. */
  ghost predicate SlotSet(c: FileView, d: FileView, k: nat, e: DirEnt) {
    && IsDir(d) && k <= NEnt(d) <= MAXENTRIES && k < MAXENTRIES
    && IsDir(c) && NEnt(c) == (if k == NEnt(d) then NEnt(d) + 1 else NEnt(d)) && NEnt(c) <= MAXENTRIES
    && (forall j :: 0 <= j < MAXENTRIES && j != k ==>
          Entry(c, j) == Entry(d, j) && NameAt(c, j) == NameAt(d, j) && (Used(c, j) <==> Used(d, j)))
    && Entry(c, k) == e && NameAt(c, k) == CStr(e.name[..NAMELEN - 1]) && (Used(c, k) <==> e.ino != NOINO)
    && (forall i :: LinksTo(c, i)
          == LinksTo(d, i) + (if e.ino == i then 1 else 0) - (if k < NEnt(d) && Entry(d, k).ino == i then 1 else 0))
  }

  /** Writing entry `e` into slot `k`, whatever else happens to the inode, is exactly that replacement. */
  lemma SlotIsSet(c: FileView, d: FileView, k: nat, e: DirEnt)
    requires IsDir(d) && k <= NEnt(d) && k < MAXENTRIES
    requires c.bytes == SetSlot(d, k, e).bytes && c.size == SetSlot(d, k, e).size && c.typ == d.typ
    ensures SlotSet(c, d, k, e)
  {
    hide SetSlot, CStr, Entry, NameAt, Used, LinksTo;
    NEntBound(d);
    SetSlotCount(d, k, e);
    SlotNames(d, k, e);
    SlotTyp(d, k, e);
    SameEntries(SetSlot(d, k, e), c);
    forall i
      ensures LinksTo(c, i) ==
        LinksTo(d, i) + (if e.ino == i then 1 else 0) - (if k < NEnt(d) && Entry(d, k).ino == i then 1 else 0)
    {
      SetSlotLinks(d, k, e, i);
    }
  }

  lemma SlotTyp(d: FileView, k: nat, e: DirEnt)
    requires |d.bytes| == MAXFILE && k < MAXENTRIES
    ensures SetSlot(d, k, e).typ == d.typ && SetSlot(d, k, e).links == d.links && SetSlot(d, k, e).refs == d.refs
  {
  }

  /** Linking a fresh name in an empty or new slot adds just that name. */
  lemma LinkName(c: FileView, d: FileView, k: nat, e: DirEnt, name: Name, n: Name)
    requires SlotSet(c, d, k, e) && NamesUnique(d) && NamesUnique(c) && e.ino != NOINO
    requires CStr(e.name[..NAMELEN - 1]) == name && (k < NEnt(d) ==> !Used(d, k))
    ensures n in DirMap(c) <==> n in DirMap(d) || n == name
    ensures n in DirMap(c) ==> DirMap(c)[n] == if n == name then e.ino else DirMap(d)[n]
  {
    hide Entry, NameAt, Used, CStr, LinksTo;
    if n in DirMap(d) {
      var j :| 0 <= j < NEnt(d) && Used(d, j) && NameAt(d, j) == n;
      assert Used(c, j) && NameAt(c, j) == n;
    }
    if n == name {
      assert Used(c, k) && NameAt(c, k) == n;
    }
  }

  lemma LinkMap(c: FileView, d: FileView, k: nat, e: DirEnt, name: Name)
    requires SlotSet(c, d, k, e) && NamesUnique(d) && e.ino != NOINO && CStr(e.name[..NAMELEN - 1]) == name
    requires (k < NEnt(d) ==> !Used(d, k)) && name !in DirMap(d)
    ensures NamesUnique(c) && DirMap(c) == DirMap(d)[name := e.ino]
  {
    hide Entry, NameAt, Used, CStr, LinksTo;
    forall j | 0 <= j < NEnt(d) && Used(d, j)
      ensures NameAt(d, j) != name
    {
      assert NameAt(d, j) in DirMap(d);
    }
    assert NamesUnique(c);
    forall n: Name
      ensures n in DirMap(c) <==> n in DirMap(d)[name := e.ino]
      ensures n in DirMap(c) ==> DirMap(c)[n] == DirMap(d)[name := e.ino][n]
    {
      LinkName(c, d, k, e, name, n);
    }
  }

  /** Clearing a used slot removes just its name. */
  lemma UnlinkMap(c: FileView, d: FileView, k: nat, e: DirEnt)
    requires SlotSet(c, d, k, e) && NamesUnique(d) && e.ino == NOINO && k < NEnt(d) && Used(d, k)
    ensures NamesUnique(c) && DirMap(c) == DirMap(d) - {NameAt(d, k)}
  {
    hide Entry, NameAt, Used, CStr, LinksTo, DirMap;
    assert NamesUnique(c);
    forall n: Name
      ensures n in DirMap(c) <==> n in DirMap(d) - {NameAt(d, k)}
      ensures n in DirMap(c) ==> DirMap(c)[n] == DirMap(d)[n]
    {
      UnlinkName(c, d, k, e, n);
    }
  }

  lemma UnlinkName(c: FileView, d: FileView, k: nat, e: DirEnt, n: Name)
    requires SlotSet(c, d, k, e) && NamesUnique(d) && e.ino == NOINO && k < NEnt(d) && Used(d, k) && NamesUnique(c)
    ensures n in DirMap(c) <==> n in DirMap(d) && n != NameAt(d, k)
    ensures n in DirMap(c) ==> DirMap(c)[n] == DirMap(d)[n]
  {
    hide Entry, NameAt, Used, CStr, LinksTo;
    if n in DirMap(d) && n != NameAt(d, k) {
      var j :| 0 <= j < NEnt(d) && Used(d, j) && NameAt(d, j) == n;
      assert Used(c, j) && NameAt(c, j) == n;
    }
    if n in DirMap(c) {
      var j :| 0 <= j < NEnt(c) && Used(c, j) && NameAt(c, j) == n;
      assert j != k && Used(d, j) && NameAt(d, j) == n;
    }
  }

  /** Linking keeps the directory invariant. */
  lemma LinkKeeps(v: View, k: nat, name: Name, i: u32)
    requires DirOk(v) && i in v && |name| < NAMELEN && k < MAXENTRIES
    requires k <= NEnt(v[ROOT_LOCATION]) && (k < NEnt(v[ROOT_LOCATION]) ==> !Used(v[ROOT_LOCATION], k))
    requires name !in DirMap(v[ROOT_LOCATION])
    ensures DirOk(LinkView(v, k, name, i))
    ensures DirMap(LinkView(v, k, name, i)[ROOT_LOCATION]) == DirMap(v[ROOT_LOCATION])[name := i]
  {
    hide SetSlot, CStr, Entry, NameAt, LinksTo, NamesUnique, DirMap;
    var d, e, w := v[ROOT_LOCATION], NewEntry(name, i), LinkView(v, k, name, i);
    NewEntryName(name, i);
    SlotTyp(d, k, e);
    SlotIsSet(w[ROOT_LOCATION], d, k, e);
    LinkMap(w[ROOT_LOCATION], d, k, e, name);
  }

  /** Clearing the slot of a file somebody still holds keeps the directory invariant. */
  lemma UnlinkKeeps(v: View, k: nat)
    requires DirOk(v) && k < NEnt(v[ROOT_LOCATION]) && Used(v[ROOT_LOCATION], k)
      && v[Entry(v[ROOT_LOCATION], k).ino].refs > 0
    ensures v[Entry(v[ROOT_LOCATION], k).ino].links > 0
    ensures DirOk(UnlinkView(v, k))
    ensures DirMap(UnlinkView(v, k)[ROOT_LOCATION]) == DirMap(v[ROOT_LOCATION]) - {NameAt(v[ROOT_LOCATION], k)}
  {
    hide SetSlot, CStr, Entry, NameAt, LinksTo, NamesUnique, DirMap;
    UsedHasLink(v, k);
    var d, e, w := v[ROOT_LOCATION], NoEntry(), UnlinkView(v, k);
    SlotTyp(d, k, e);
    SlotIsSet(w[ROOT_LOCATION], d, k, e);
    UnlinkMap(w[ROOT_LOCATION], d, k, e);
  }

  // ---------------------------------------------------------------- link counts are name counts

  /** The names that lead to inode `i` in the first `m` slots. */
  ghost function NamesTo(d: FileView, i: nat, m: nat): set<Name>
    requires |d.bytes| == MAXFILE && m <= NEnt(d) <= MAXENTRIES
  {
    set k: nat | 0 <= k < m && Used(d, k) && Entry(d, k).ino == i :: NameAt(d, k)
  }

  lemma NamesToStep(d: FileView, i: nat, k: nat)
    requires |d.bytes| == MAXFILE && k < NEnt(d) <= MAXENTRIES && NamesUnique(d) && i != NOINO
    ensures Entry(d, k).ino == i ==>
              NamesTo(d, i, k + 1) == NamesTo(d, i, k) + {NameAt(d, k)} && NameAt(d, k) !in NamesTo(d, i, k)
    ensures Entry(d, k).ino != i ==> NamesTo(d, i, k + 1) == NamesTo(d, i, k)
  {
    hide CStr, NameAt, Entry;
  }

  lemma {:induction false} NamesToCount(d: FileView, i: nat, m: nat)
    requires |d.bytes| == MAXFILE && m <= NEnt(d) <= MAXENTRIES && NamesUnique(d) && i != NOINO
    ensures |NamesTo(d, i, m)| == multiset(Inos(d)[..m])[i]
    decreases m
  {
    hide CStr, NameAt, NamesUnique, NamesTo, Entry;
    if m == 0 {
      NamesToNone(d, i);
    } else {
      NamesToCount(d, i, m - 1);
      NamesToStep(d, i, m - 1);
      assert Inos(d)[..m] == Inos(d)[..m - 1] + [Inos(d)[m - 1]];
    }
  }

  lemma NamesToNone(d: FileView, i: nat)
    requires |d.bytes| == MAXFILE && NEnt(d) <= MAXENTRIES
    ensures NamesTo(d, i, 0) == {}
  {
  }

  /** The link count of a file is the number of names it has; the root counts one for itself. */
  lemma LinksAreNames(v: View, i: nat)
    requires DirOk(v) && i in v
    ensures v[i].links ==
      |set n | n in DirMap(v[ROOT_LOCATION]) && DirMap(v[ROOT_LOCATION])[n] == i|
      + (if i == ROOT_LOCATION then 1 else 0)
  {
    hide CStr, NameAt, Entry, NamesUnique;
    var d := v[ROOT_LOCATION];
    NamesToCount(d, i, NEnt(d));
    assert Inos(d)[..NEnt(d)] == Inos(d);
    NamesToMap(d, i);
  }

  lemma NamesToMap(d: FileView, i: nat)
    requires |d.bytes| == MAXFILE && NEnt(d) <= MAXENTRIES && NamesUnique(d) && i != NOINO
    ensures NamesTo(d, i, NEnt(d)) == set n | n in DirMap(d) && DirMap(d)[n] == i
  {
    hide CStr, NameAt, Entry;
    forall n | n in NamesTo(d, i, NEnt(d))
      ensures n in DirMap(d) && DirMap(d)[n] == i
    {
      var k :| 0 <= k < NEnt(d) && Used(d, k) && Entry(d, k).ino == i && NameAt(d, k) == n;
      assert NameAt(d, k) in DirMap(d);
    }
    forall n | n in DirMap(d) && DirMap(d)[n] == i
      ensures n in NamesTo(d, i, NEnt(d))
    {
      var k :| 0 <= k < NEnt(d) && Used(d, k) && NameAt(d, k) == n && Entry(d, k).ino == i;
    }
  }

  // ---------------------------------------------------------------- full directories

  /** The names in the first `m` slots. */
  ghost function NamesIn(d: FileView, m: nat): set<Name>
    requires |d.bytes| == MAXFILE && m <= NEnt(d) <= MAXENTRIES
  {
    set k: nat | 0 <= k < m && Used(d, k) :: NameAt(d, k)
  }

  lemma NamesInStep(d: FileView, k: nat)
    requires |d.bytes| == MAXFILE && k < NEnt(d) <= MAXENTRIES && NamesUnique(d)
    ensures Used(d, k) ==> NamesIn(d, k + 1) == NamesIn(d, k) + {NameAt(d, k)} && NameAt(d, k) !in NamesIn(d, k)
    ensures !Used(d, k) ==> NamesIn(d, k + 1) == NamesIn(d, k)
  {
    hide CStr, NameAt, Entry;
  }

  lemma {:induction false} NamesInCount(d: FileView, m: nat)
    requires |d.bytes| == MAXFILE && m <= NEnt(d) <= MAXENTRIES && NamesUnique(d)
    ensures |NamesIn(d, m)| <= m
    ensures |NamesIn(d, m)| == m <==> forall k :: 0 <= k < m ==> Used(d, k)
    decreases m
  {
    hide CStr, NameAt, NamesUnique, NamesIn, Used;
    if m == 0 {
      NoNamesIn(d);
    } else {
      NamesInCount(d, m - 1);
      NamesInStep(d, m - 1);
    }
  }

  lemma NoNamesIn(d: FileView)
    requires |d.bytes| == MAXFILE && NEnt(d) <= MAXENTRIES
    ensures NamesIn(d, 0) == {}
  {
  }

  /** The directory has as many names as it can have exactly when every slot it can have is in use. */
  lemma FullDir(d: FileView)
    requires |d.bytes| == MAXFILE && NEnt(d) <= MAXENTRIES && NamesUnique(d)
    ensures |DirMap(d)| <= NEnt(d)
    ensures |DirMap(d)| == MAXENTRIES <==> NEnt(d) == MAXENTRIES && forall k :: 0 <= k < MAXENTRIES ==> Used(d, k)
  {
    hide CStr, NameAt, Entry;
    NamesInCount(d, NEnt(d));
    assert DirMap(d).Keys == NamesIn(d, NEnt(d)) by {
      KeysAreNames(d);
    }
  }

  lemma KeysAreNames(d: FileView)
    requires |d.bytes| == MAXFILE && NEnt(d) <= MAXENTRIES && NamesUnique(d)
    ensures DirMap(d).Keys == NamesIn(d, NEnt(d))
  {
    hide CStr, NameAt, Entry;
  }

  // ---------------------------------------------------------------- files

  /** A change to a regular file that keeps its type and link count, or to a reference count that keeps the file
      held, does not disturb the directory. */
  lemma FileChangeKeeps(v: View, i: nat, f: FileView)
    requires DirOk(v) && i in v && |f.bytes| == MAXFILE && f.links == v[i].links && f.typ == v[i].typ
    requires i == ROOT_LOCATION ==> f.bytes == v[i].bytes && f.size == v[i].size
    requires f.refs > 0 || f.links > 0
    ensures DirOk(v[i := f])
    ensures DirMap(v[i := f][ROOT_LOCATION]) == DirMap(v[ROOT_LOCATION])
  {
    hide CStr, Entry, NameAt, LinksTo, NamesUnique, DirMap;
    if i == ROOT_LOCATION {
      SameEntries(v[i], f);
    }
  }

  /** A new file that nothing links to yet. */
  lemma NewFileKeeps(v: View, b: nat, f: FileView)
    requires DirOk(v) && b !in v && b != NOINO && |f.bytes| == MAXFILE && f.links == 0 && f.typ == TYPE_FILE
      && f.refs > 0
    ensures DirOk(v[b := f])
  {
    hide CStr, Entry, NameAt, NamesUnique, DirMap;
    var d := v[ROOT_LOCATION];
    assert b !in Inos(d);
    assert LinksTo(d, b) == 0;
  }

  /** An unlinked file that nobody holds any more can go: no slot names it. */
  lemma RemoveFileKeeps(v: View, i: nat)
    requires DirOk(v) && i in v && v[i].links == 0
    ensures i != ROOT_LOCATION && DirOk(v - {i})
  {
    hide CStr, NameAt, NamesUnique, DirMap, Entry;
    var d := v[ROOT_LOCATION];
    forall k | 0 <= k < NEnt(d) && Used(d, k)
      ensures Entry(d, k).ino != i
    {
      UsedHasLink(v, k);
    }
  }

  /** The files after one reference to `i` is dropped: an unlinked file goes with its last reference. */
  ghost function DecrefView(v: View, i: nat): View
    requires i in v && v[i].refs > 0
  {
    if v[i].refs > 1 || v[i].links > 0 then v[i := v[i].(refs := v[i].refs - 1)] else v - {i}
  }

  lemma DecrefKeeps(v: View, i: nat)
    requires DirOk(v) && i in v && v[i].refs > 0
    ensures DirOk(DecrefView(v, i))
    ensures DirMap(DecrefView(v, i)[ROOT_LOCATION]) == DirMap(v[ROOT_LOCATION])
  {
    hide CStr, Entry, NameAt, LinksTo, NamesUnique, DirMap, IsDir;
    if v[i].refs > 1 || v[i].links > 0 {
      FileChangeKeeps(v, i, v[i].(refs := v[i].refs - 1));
    } else {
      RemoveFileKeeps(v, i);
    }
  }

  // ---------------------------------------------------------------- bytes past the end of file

  /** Every byte past the end of the file is zero. */
  ghost predicate ZeroTail(f: FileView) {
    forall k :: f.size <= k < |f.bytes| ==> f.bytes[k] == 0
  }

  /** A write, wherever it starts, keeps the bytes past the end zero; so a write past the end leaves a gap of
      zeros. */
  lemma WriteKeepsTail(f: FileView, at: nat, data: seq<byte>, size: nat)
    requires |f.bytes| == MAXFILE && ZeroTail(f) && at + |data| <= MAXFILE && size >= f.size && size >= at + |data|
    ensures ZeroTail(f.(bytes := Splice(f.bytes, at, data), size := size))
    ensures forall k :: f.size <= k < at ==> Splice(f.bytes, at, data)[k] == 0
  {
  }

  // ---------------------------------------------------------------- the file system as a name space

  /** Names and files: what users of the file system can tell apart.  The directory's own bytes are hidden. */
  datatype AbsFs = AbsFs(names: map<Name, nat>, files: View)

  ghost function HideDir(i: nat, f: FileView): FileView {
    if i == ROOT_LOCATION then f.(size := 0, bytes := []) else f
  }

  ghost function AbsOf(v: View): AbsFs
    requires DirOk(v)
  {
    AbsFs(DirMap(v[ROOT_LOCATION]), map i | i in v :: HideDir(i, v[i]))
  }

  /** `name` now also names file `i`. */
  ghost function AddLink(a: AbsFs, name: Name, i: nat): AbsFs
    requires i in a.files
  {
    AbsFs(a.names[name := i], a.files[i := a.files[i].(links := a.files[i].links + 1)])
  }

  /** `name` is gone, and with it the file if this was its last link and nobody holds it. */
  ghost function DropName(a: AbsFs, name: Name): AbsFs
    requires name in a.names && a.names[name] in a.files && a.files[a.names[name]].links > 0
  {
    var i := a.names[name];
    AbsFs(a.names - {name},
          if a.files[i].links == 1 && a.files[i].refs == 0 then a.files - {i}
          else a.files[i := a.files[i].(links := a.files[i].links - 1)])
  }

  ghost function AddRef(a: AbsFs, i: nat): AbsFs
    requires i in a.files
  {
    a.(files := a.files[i := a.files[i].(refs := a.files[i].refs + 1)])
  }

  ghost function DropRef(a: AbsFs, i: nat): AbsFs
    requires i in a.files && a.files[i].refs > 0
  {
    a.(files := DecrefView(a.files, i))
  }

  /** The file formerly named `n1` is now named `n2`; its link count is what it was. */
  ghost function Renamed(a: AbsFs, n1: Name, n2: Name): AbsFs
    requires n1 in a.names
  {
    a.(names := a.names[n2 := a.names[n1]] - {n1})
  }

  lemma AbsLink(v: View, k: nat, name: Name, i: u32)
    requires DirOk(v) && i in v && |name| < NAMELEN && k < MAXENTRIES
    requires k <= NEnt(v[ROOT_LOCATION]) && (k < NEnt(v[ROOT_LOCATION]) ==> !Used(v[ROOT_LOCATION], k))
    requires name !in DirMap(v[ROOT_LOCATION])
    ensures DirOk(LinkView(v, k, name, i)) && AbsOf(LinkView(v, k, name, i)) == AddLink(AbsOf(v), name, i)
  {
    hide SetSlot, CStr, Entry, NameAt, LinksTo, NamesUnique, DirMap;
    LinkKeeps(v, k, name, i);
    SlotTyp(v[ROOT_LOCATION], k, NewEntry(name, i));
    assert AbsOf(LinkView(v, k, name, i)).files == AddLink(AbsOf(v), name, i).files;
  }

  lemma AbsUnlink(v: View, k: nat)
    requires DirOk(v) && k < NEnt(v[ROOT_LOCATION]) && Used(v[ROOT_LOCATION], k)
      && v[Entry(v[ROOT_LOCATION], k).ino].refs > 0
    ensures v[Entry(v[ROOT_LOCATION], k).ino].links > 0
    ensures DirOk(UnlinkView(v, k))
    ensures AbsOf(UnlinkView(v, k)).names == AbsOf(v).names - {NameAt(v[ROOT_LOCATION], k)}
    ensures var i := Entry(v[ROOT_LOCATION], k).ino;
            AbsOf(UnlinkView(v, k)).files == AbsOf(v).files[i := AbsOf(v).files[i].(links := v[i].links - 1)]
  {
    hide SetSlot, CStr, Entry, NameAt, LinksTo, NamesUnique, DirMap;
    UnlinkKeeps(v, k);
    SlotTyp(v[ROOT_LOCATION], k, NoEntry());
  }

  lemma AbsDecref(v: View, i: nat)
    requires DirOk(v) && i in v && v[i].refs > 0
    ensures DirOk(DecrefView(v, i)) && AbsOf(DecrefView(v, i)) == DropRef(AbsOf(v), i)
  {
    hide CStr, Entry, NameAt, LinksTo, NamesUnique, DirMap;
    DecrefKeeps(v, i);
    assert AbsOf(DecrefView(v, i)).files == DropRef(AbsOf(v), i).files;
  }

  lemma AbsChange(v: View, i: nat, f: FileView)
    requires DirOk(v) && i in v && |f.bytes| == MAXFILE && f.links == v[i].links && f.typ == v[i].typ
    requires i == ROOT_LOCATION ==> f.bytes == v[i].bytes && f.size == v[i].size
    requires f.refs > 0 || f.links > 0
    ensures DirOk(v[i := f]) && AbsOf(v[i := f]) == AbsOf(v).(files := AbsOf(v).files[i := HideDir(i, f)])
  {
    hide CStr, Entry, NameAt, LinksTo, NamesUnique, DirMap;
    FileChangeKeeps(v, i, f);
  }

  lemma AbsNew(v: View, b: nat, f: FileView)
    requires DirOk(v) && b !in v && b != NOINO && |f.bytes| == MAXFILE && f.links == 0 && f.typ == TYPE_FILE
      && f.refs > 0
    ensures DirOk(v[b := f]) && AbsOf(v[b := f]) == AbsOf(v).(files := AbsOf(v).files[b := f])
  {
    hide CStr, Entry, NameAt, LinksTo, NamesUnique, DirMap;
    NewFileKeeps(v, b, f);
  }

  /** A name leads to exactly one used slot. */
  lemma NameSlot(d: FileView, name: Name, k: nat)
    requires IsDir(d) && NEnt(d) <= MAXENTRIES && NamesUnique(d) && k < NEnt(d) && Used(d, k) && NameAt(d, k) == name
    ensures name in DirMap(d) && DirMap(d)[name] == Entry(d, k).ino
  {
    hide CStr, Entry, NameAt;
  }
}
