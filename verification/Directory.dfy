/** What a directory's slots say: a sequence of marks, searched and edited slot by slot, and the map
    from names to entries that it stands for. */
module Directory {
  import opened Bytes
  import opened Results
  import opened ShortNames

  /** How a reader treats a slot: the end of the directory, a deleted slot, a slot that is passed over
      (long name, volume label, `.` and `..`), or a live entry. */
  datatype Mark = End | Gone | Hidden | Live(entry: DirEntry)

  function Classify(s: Slot): Mark {
    if s[0] == 0 then End
    else if s[0] == DELETED then Gone
    else if IsVisible(s) then Live(Parse(s))
    else Hidden
  }
  /** Which slots a reader reports, said on the bytes alone: not the end, not deleted, no volume label (a long
      name carries that bit too) and not one of the two dot names. */
  lemma ClassifyMeans(s: Slot)
    ensures Classify(s).End? <==> s[0] == 0
    ensures Classify(s).Gone? <==> s[0] == 0xE5
    ensures Classify(s).Live? <==>
              s[0] != 0 && s[0] != 0xE5 && s[11] / 8 % 2 == 0 && NameOf(s) != [46] && NameOf(s) != [46, 46]
    ensures Classify(s).Live? ==>
              var e := Classify(s).entry;
              && e.name == NameOf(s) && (e.isDir <==> s[11] / 16 % 2 == 1)
              && e.cluster == s[26] as int + 0x100 * (s[27] as int)
                              + 0x1_0000 * (s[20] as int) + 0x100_0000 * (s[21] as int)
              && e.size == s[28] as int + 0x100 * (s[29] as int)
                           + 0x1_0000 * (s[30] as int) + 0x100_0000 * (s[31] as int)
  {
    if s[11] / 8 % 2 == 0 {
      NotLongName(s[11]);
    }
  }

  /** `ms` are the marks of `slots`, one by one. The trigger makes a proof name the slot it looks at. */
  ghost predicate MarksAre(slots: seq<Slot>, ms: seq<Mark>) {
    |ms| == |slots| && forall i {:trigger Classify(slots[i])} :: 0 <= i < |slots| ==> ms[i] == Classify(slots[i])
  }

  lemma MarksExist(slots: seq<Slot>)
    ensures exists ms :: MarksAre(slots, ms)
  {
    var ms := seq(|slots|, i requires 0 <= i < |slots| => Classify(slots[i]));
    assert MarksAre(slots, ms);
  }

  ghost function Marks(slots: seq<Slot>): (r: seq<Mark>)
    ensures MarksAre(slots, r)
  {
    MarksExist(slots);
    var ms :| MarksAre(slots, ms);
    ms
  }

  lemma MarkAt(slots: seq<Slot>, i: nat)
    requires i < |slots|
    ensures Marks(slots)[i] == Classify(slots[i])
    ensures Dead(Marks(slots)[i]) <==> IsDead(slots[i])
    ensures Marks(slots)[i].Live? ==> Lower(Marks(slots)[i].entry.name) == Marks(slots)[i].entry.name
  {
  }

  /** Sequences of marks that agree slot by slot are equal. */
  lemma MarksEqual(slots: seq<Slot>, ms: seq<Mark>)
    requires |ms| == |slots| && forall i :: 0 <= i < |ms| ==> ms[i] == Marks(slots)[i]
    ensures Marks(slots) == ms
  {
  }

  lemma MarksUpdate(slots: seq<Slot>, k: nat, s: Slot)
    requires k < |slots|
    ensures Marks(slots[k := s]) == Marks(slots)[k := Classify(s)]
  {
    var slots' := slots[k := s];
    var ms := Marks(slots)[k := Classify(s)];
    forall i | 0 <= i < |ms|
      ensures ms[i] == Marks(slots')[i]
    {
      MarkAt(slots', i);
      MarkAt(slots, i);
    }
    MarksEqual(slots', ms);
  }

  lemma MarksConcat(a: seq<Slot>, b: seq<Slot>)
    ensures Marks(a + b) == Marks(a) + Marks(b)
  {
    var ms := Marks(a) + Marks(b);
    forall i | 0 <= i < |ms|
      ensures ms[i] == Marks(a + b)[i]
    {
      MarkAt(a + b, i);
      if i < |a| {
        MarkAt(a, i);
      } else {
        MarkAt(b, i - |a|);
      }
    }
    MarksEqual(a + b, ms);
  }

  predicate Dead(m: Mark) {
    m.End? || m.Gone?
  }

  // ---- Reading ----

  /** The entries `read_dir` collects from slot `i` on. */
  ghost function EntriesFrom(ms: seq<Mark>, i: nat): seq<DirEntry>
    decreases |ms| - i
  {
    if i >= |ms| || ms[i].End? then []
    else (if ms[i].Live? then [ms[i].entry] else []) + EntriesFrom(ms, i + 1)
  }

  /** The entries come in the order of their slots: exactly the live slots before the end. */
  lemma {:induction false} EntriesInOrder(ms: seq<Mark>, i: nat) returns (at: seq<nat>)
    ensures var es := EntriesFrom(ms, i);
            && |at| == |es| && (forall j :: 0 <= j < |at| ==> i <= at[j] < |ms| && ms[at[j]] == Live(es[j]))
            && (forall j, l :: 0 <= j < l < |at| ==> at[j] < at[l])
    ensures forall k :: i <= k < |ms| && ms[k].Live? && (forall e :: i <= e < k ==> !ms[e].End?) ==> k in at
    decreases |ms| - i
  {
    at := [];
    if i < |ms| && !ms[i].End? {
      var rest := EntriesInOrder(ms, i + 1);
      at := (if ms[i].Live? then [i] else []) + rest;
      forall k | i <= k < |ms| && ms[k].Live? && (forall e :: i <= e < k ==> !ms[e].End?)
        ensures k in at
      {
        assert k > i ==> k in rest;
      }
    }
  }

  /** Index of the first live entry with the given name (ignoring case) before the end, or -1. */
  ghost function FindFrom(ms: seq<Mark>, name: Str, i: nat): (r: int)
    ensures r == -1 || (i <= r < |ms| && ms[r].Live?)
    decreases |ms| - i
  {
    if i >= |ms| || ms[i].End? then -1
    else if ms[i].Live? && Lower(ms[i].entry.name) == Lower(name) then i
    else FindFrom(ms, name, i + 1)
  }

  ghost function Find(ms: seq<Mark>, name: Str): (r: int)
    ensures r == -1 || (0 <= r < |ms| && ms[r].Live?)
  {
    FindFrom(ms, name, 0)
  }

  /** An end slot comes at slot `i` or after it. */
  ghost predicate HasEnd(ms: seq<Mark>, i: nat)
    decreases |ms| - i
  {
    i < |ms| && (ms[i].End? || HasEnd(ms, i + 1))
  }

  /** First entry with the given name, ignoring case. */
  ghost function FirstMatch(es: seq<DirEntry>, name: Str): Option<DirEntry> {
    if es == [] then None
    else if Lower(es[0].name) == Lower(name) then Some(es[0])
    else FirstMatch(es[1..], name)
  }

  /** Searching the collected entries is searching the slots. */
  lemma {:induction false} MatchIsFind(ms: seq<Mark>, name: Str, i: nat)
    ensures FirstMatch(EntriesFrom(ms, i), name)
         == var r := FindFrom(ms, name, i); if r < 0 then None else Some(ms[r].entry)
    decreases |ms| - i
  {
    if i < |ms| && !ms[i].End? {
      MatchIsFind(ms, name, i + 1);
      var rest := EntriesFrom(ms, i + 1);
      if ms[i].Live? {
        assert EntriesFrom(ms, i) == [ms[i].entry] + rest;
        assert ([ms[i].entry] + rest)[1..] == rest;
      } else {
        assert EntriesFrom(ms, i) == rest;
      }
    }
  }

  // ---- Well-formed directories ----

  /** After the first end slot every slot is dead. */
  ghost predicate TailDead(ms: seq<Mark>) {
    forall i, j :: 0 <= i < j < |ms| && ms[i].End? ==> Dead(ms[j])
  }

  /** No two live entries share a name. */
  ghost predicate UniqueNames(ms: seq<Mark>) {
    forall i, j :: 0 <= i < j < |ms| && ms[i].Live? && ms[j].Live? ==> ms[i].entry.name != ms[j].entry.name
  }

  /** Decoded names are lower case. */
  ghost predicate LowerNames(ms: seq<Mark>) {
    forall i :: 0 <= i < |ms| && ms[i].Live? ==> Lower(ms[i].entry.name) == ms[i].entry.name
  }

  ghost predicate DirOk(ms: seq<Mark>) {
    TailDead(ms) && UniqueNames(ms) && LowerNames(ms)
  }

  /** What a search means in a directory with a dead tail: it finds a live entry of that name wherever
      there is one. */
  lemma {:induction false} FindMeans(ms: seq<Mark>, name: Str, i: nat)
    requires TailDead(ms) && LowerNames(ms)
    ensures var r := FindFrom(ms, name, i);
            if r < 0 then forall k :: i <= k < |ms| && ms[k].Live? ==> ms[k].entry.name != Lower(name)
            else ms[r].entry.name == Lower(name)
    decreases |ms| - i
  {
    if i < |ms| && !ms[i].End? {
      FindMeans(ms, name, i + 1);
    }
  }

  lemma FindIs(ms: seq<Mark>, name: Str, k: nat)
    requires DirOk(ms) && k < |ms| && ms[k].Live? && ms[k].entry.name == Lower(name)
    ensures Find(ms, name) == k
  {
    FindMeans(ms, name, 0);
  }

  lemma {:induction false} FindLower(ms: seq<Mark>, name: Str, i: nat)
    ensures FindFrom(ms, Lower(name), i) == FindFrom(ms, name, i)
    decreases |ms| - i
  {
    LowerTwice(name);
    if i < |ms| && !ms[i].End? {
      FindLower(ms, name, i + 1);
    }
  }

  /** `k` is the first reusable slot. */
  ghost predicate FirstDead(ms: seq<Mark>, k: nat) {
    k < |ms| && Dead(ms[k]) && forall j :: 0 <= j < k ==> !Dead(ms[j])
  }

  ghost predicate NoneDead(ms: seq<Mark>) {
    forall j :: 0 <= j < |ms| ==> !Dead(ms[j])
  }

  // ---- The directory as a map from names to entries ----

  ghost function LiveNames(ms: seq<Mark>): set<Str> {
    set i | 0 <= i < |ms| && ms[i].Live? :: ms[i].entry.name
  }

  ghost function EntryMap(ms: seq<Mark>): map<Str, DirEntry> {
    map n | n in LiveNames(ms) && Find(ms, n) >= 0 :: ms[Find(ms, n)].entry
  }

  lemma EntryMapOf(ms: seq<Mark>, k: nat)
    requires DirOk(ms) && k < |ms| && ms[k].Live?
    ensures ms[k].entry.name in EntryMap(ms) && EntryMap(ms)[ms[k].entry.name] == ms[k].entry
  {
    FindIs(ms, ms[k].entry.name, k);
  }

  lemma EntryMapFrom(ms: seq<Mark>, n: Str) returns (k: nat)
    requires DirOk(ms) && n in EntryMap(ms)
    ensures k < |ms| && ms[k].Live? && ms[k].entry.name == n && EntryMap(ms)[n] == ms[k].entry
  {
    k :| 0 <= k < |ms| && ms[k].Live? && ms[k].entry.name == n;
    EntryMapOf(ms, k);
  }

  /** Looking a name up in the map is searching the slots. */
  lemma EntryMapAt(ms: seq<Mark>, name: Str)
    requires DirOk(ms)
    ensures Lower(name) in EntryMap(ms) <==> Find(ms, name) >= 0
    ensures Find(ms, name) >= 0 ==> EntryMap(ms)[Lower(name)] == ms[Find(ms, name)].entry
  {
    FindMeans(ms, name, 0);
    if Find(ms, name) >= 0 {
      EntryMapOf(ms, Find(ms, name));
    } else if Lower(name) in EntryMap(ms) {
      var k := EntryMapFrom(ms, Lower(name));
    }
  }

  /** A map that lists exactly the live entries is the directory's map. */
  lemma EntryMapSame(ms': seq<Mark>, m: map<Str, DirEntry>)
    requires DirOk(ms')
    requires forall k :: 0 <= k < |ms'| && ms'[k].Live? ==>
                           ms'[k].entry.name in m && m[ms'[k].entry.name] == ms'[k].entry
    requires forall n :: n in m ==> exists k :: 0 <= k < |ms'| && ms'[k] == Live(m[n]) && m[n].name == n
    ensures EntryMap(ms') == m
  {
    forall n
      ensures n in EntryMap(ms') <==> n in m
      ensures n in EntryMap(ms') ==> EntryMap(ms')[n] == m[n]
    {
      if n in EntryMap(ms') {
        var k := EntryMapFrom(ms', n);
      }
      if n in m {
        var k :| 0 <= k < |ms'| && ms'[k] == Live(m[n]) && m[n].name == n;
        EntryMapOf(ms', k);
      }
    }
  }

  /** Writing a new entry over the first dead slot, under a name not yet present, keeps the directory
      in order and adds exactly that entry. */
  lemma AddMark(ms: seq<Mark>, k: nat, e: DirEntry)
    requires DirOk(ms) && FirstDead(ms, k) && Lower(e.name) == e.name
    requires Find(ms, e.name) < 0
    ensures DirOk(ms[k := Live(e)])
    ensures EntryMap(ms[k := Live(e)]) == EntryMap(ms)[e.name := e]
  {
    var ms' := ms[k := Live(e)];
    FindMeans(ms, e.name, 0);
    assert DirOk(ms');
    var m := EntryMap(ms)[e.name := e];
    forall j | 0 <= j < |ms'| && ms'[j].Live?
      ensures ms'[j].entry.name in m && m[ms'[j].entry.name] == ms'[j].entry
    {
      if j != k {
        EntryMapOf(ms, j);
      }
    }
    forall n | n in m
      ensures exists j :: 0 <= j < |ms'| && ms'[j] == Live(m[n]) && m[n].name == n
    {
      if n == e.name {
        assert ms'[k] == Live(m[n]);
      } else {
        var j := EntryMapFrom(ms, n);
        assert ms'[j] == Live(m[n]);
      }
    }
    EntryMapSame(ms', m);
  }

  /** Marking a live slot deleted removes exactly its entry. */
  lemma DeleteMark(ms: seq<Mark>, k: nat)
    requires DirOk(ms) && k < |ms| && ms[k].Live?
    ensures DirOk(ms[k := Gone])
    ensures EntryMap(ms[k := Gone]) == EntryMap(ms) - {ms[k].entry.name}
  {
    var ms' := ms[k := Gone];
    var m := EntryMap(ms) - {ms[k].entry.name};
    assert DirOk(ms');
    forall j | 0 <= j < |ms'| && ms'[j].Live?
      ensures ms'[j].entry.name in m && m[ms'[j].entry.name] == ms'[j].entry
    {
      EntryMapOf(ms, j);
    }
    forall n | n in m
      ensures exists j :: 0 <= j < |ms'| && ms'[j] == Live(m[n]) && m[n].name == n
    {
      var j := EntryMapFrom(ms, n);
      assert ms'[j] == Live(m[n]);
    }
    EntryMapSame(ms', m);
  }

  /** Appending end slots to a full directory changes no entry. */
  lemma AppendEnds(ms: seq<Mark>, more: seq<Mark>)
    requires DirOk(ms) && NoneDead(ms) && forall j :: 0 <= j < |more| ==> more[j].End?
    ensures DirOk(ms + more) && EntryMap(ms + more) == EntryMap(ms)
    ensures more != [] ==> FirstDead(ms + more, |ms|)
  {
    var ms' := ms + more;
    assert DirOk(ms');
    var m := EntryMap(ms);
    forall j | 0 <= j < |ms'| && ms'[j].Live?
      ensures ms'[j].entry.name in m && m[ms'[j].entry.name] == ms'[j].entry
    {
      EntryMapOf(ms, j);
    }
    forall n | n in m
      ensures exists j :: 0 <= j < |ms'| && ms'[j] == Live(m[n]) && m[n].name == n
    {
      var j := EntryMapFrom(ms, n);
      assert ms'[j] == Live(m[n]);
    }
    EntryMapSame(ms', m);
  }
}
