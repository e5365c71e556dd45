/** The N-way, multi-base merge of secret maps (pkg/merge/merge.go). */
module Merge {
  import opened Orders

  type Secrets = map<string, string>

  /** What a map says about a key. Absence is a value of its own: removing a key is an edit like any other. */
  datatype Value = Text(text: string) | Deleted

  datatype Conflict = Conflict(key: string, candidates: seq<Value>)

  /** How someone settled a key by hand. */
  datatype Choice = Keep(value: string) | Delete

  function Get(m: Secrets, key: string): Value {
    if key in m then Text(m[key]) else Deleted
  }

  function Chosen(c: Choice): Value {
    match c case Keep(v) => Text(v) case Delete => Deleted
  }

  /** Against one base: every head either kept the base's value or holds `v`, and `v` is not made up. */
  ghost predicate Agrees(base: Value, key: string, heads: seq<Secrets>, v: Value) {
    && (forall h :: h in heads ==> Get(h, key) == base || Get(h, key) == v)
    && (v == base || exists h :: h in heads && Get(h, key) == v)
    && (v == base ==> forall h :: h in heads ==> Get(h, key) == base)
  }

  /** Every base yields the outcome `v`. */
  ghost predicate Settles(bases: seq<Secrets>, heads: seq<Secrets>, key: string, v: Value) {
    forall b :: b in bases ==> Agrees(Get(b, key), key, heads, v)
  }

  ghost predicate Conflicted(bases: seq<Secrets>, heads: seq<Secrets>, key: string) {
    forall v :: !Settles(bases, heads, key, v)
  }

  /** Heads without a common ancestor are merged against an empty map. */
  function BasesOf(bases: seq<Secrets>): seq<Secrets> {
    if bases == [] then [map[]] else bases
  }

  /** Two outcomes against the same base are the same. */
  lemma AgreesUnique(base: Value, key: string, heads: seq<Secrets>, v: Value, w: Value)
    requires Agrees(base, key, heads, v) && Agrees(base, key, heads, w)
    ensures v == w
  {
  }

  lemma SettlesUnique(bases: seq<Secrets>, heads: seq<Secrets>, key: string, v: Value, w: Value)
    requires bases != [] && Settles(bases, heads, key, v) && Settles(bases, heads, key, w)
    ensures v == w
  {
    AgreesUnique(Get(bases[0], key), key, heads, v, w);
  }

  // ----- the order of a conflict's candidates: values first, then the deletion

  predicate ValueLess(a: Value, b: Value) {
    if a.Deleted? then false else b.Deleted? || Less(a.text, b.text)
  }

  lemma ValueLessIsStrictTotal()
    ensures StrictTotal(ValueLess)
  {
    LessIsStrictTotal();
    forall a, b, c | ValueLess(a, b) && ValueLess(b, c) ensures ValueLess(a, c) {
      if c.Text? { assert Less(a.text, b.text) && Less(b.text, c.text); }
    }
    forall a, b | a != b ensures ValueLess(a, b) || ValueLess(b, a) {
      if a.Text? && b.Text? { assert a.text != b.text; }
    }
    forall a ensures !ValueLess(a, a) {
      if a.Text? { assert !Less(a.text, a.text); }
    }
  }

  ghost function ValuesOf(heads: seq<Secrets>, key: string): set<Value> {
    set h | h in heads :: Get(h, key)
  }

  // ----- the methods

  method ResolveAgainst(base: Value, key: string, heads: seq<Secrets>) returns (r: Option<Value>)
    ensures r.Some? ==> Agrees(base, key, heads, r.value)
    ensures r.None? ==> forall v :: !Agrees(base, key, heads, v)
  {
    var changed: Option<Value> := None;
    for i := 0 to |heads|
      invariant changed.None? ==> forall k :: 0 <= k < i ==> Get(heads[k], key) == base
      invariant changed.Some? ==> changed.value != base
      invariant changed.Some? ==>
                  forall k :: 0 <= k < i ==> Get(heads[k], key) == base || Get(heads[k], key) == changed.value
      invariant changed.Some? ==> exists k :: 0 <= k < i && Get(heads[k], key) == changed.value
    {
      var v := Get(heads[i], key);
      if v == base {
        continue;
      }
      if changed.Some? && v != changed.value {
        assert heads[i] in heads;
        return None;
      }
      changed := Some(v);
    }
    r := if changed.None? then Some(base) else changed;
  }

  method ResolveKey(key: string, bases: seq<Secrets>, heads: seq<Secrets>) returns (r: Option<Value>)
    requires bases != []
    ensures r.Some? ==> Settles(bases, heads, key, r.value)
    ensures r.None? <==> Conflicted(bases, heads, key)
  {
    var agreed := Deleted;
    for i := 0 to |bases|
      invariant i > 0 ==> forall k :: 0 <= k < i ==> Agrees(Get(bases[k], key), key, heads, agreed)
    {
      var v := ResolveAgainst(Get(bases[i], key), key, heads);
      assert bases[i] in bases;
      if v.None? {
        return None;
      }
      if i > 0 && v.value != agreed {
        forall w ensures !Settles(bases, heads, key, w) {
          if Settles(bases, heads, key, w) {
            AgreesUnique(Get(bases[i], key), key, heads, v.value, w);
            AgreesUnique(Get(bases[0], key), key, heads, agreed, w);
          }
        }
        return None;
      }
      agreed := v.value;
    }
    r := Some(agreed);
  }

  method Candidates(key: string, heads: seq<Secrets>) returns (out: seq<Value>)
    ensures SortedBy(ValueLess, out) && Elements(out) == ValuesOf(heads, key)
  {
    out := [];
    for i := 0 to |heads|
      invariant NoDup(out) && forall v :: v in out <==> exists k :: 0 <= k < i && Get(heads[k], key) == v
    {
      var v := Get(heads[i], key);
      if v !in out {
        out := out + [v];
      }
    }
    ValueLessIsStrictTotal();
    SortSorts(ValueLess, out);
    out := Sort(ValueLess, out);
  }

  /** What a merge must be: key by key, the settled value; else the person's choice;
      else absent and reported, never chosen. */
  ghost predicate MergedKey(bases: seq<Secrets>, heads: seq<Secrets>, choices: map<string, Choice>, key: string,
                            out: Value, candidates: Option<seq<Value>>) {
    if !Conflicted(BasesOf(bases), heads, key) then
      candidates.None? && Settles(BasesOf(bases), heads, key, out)
    else if key in choices then
      candidates.None? && out == Chosen(choices[key])
    else
      out == Deleted && candidates.Some? && SortedBy(ValueLess, candidates.value) &&
      Elements(candidates.value) == ValuesOf(heads, key)
  }

  ghost function ReportedFor(conflicts: seq<Conflict>, key: string): Option<seq<Value>> {
    if exists i :: 0 <= i < |conflicts| && conflicts[i].key == key then
      var i :| 0 <= i < |conflicts| && conflicts[i].key == key;
      Some(conflicts[i].candidates)
    else None
  }

  ghost predicate KeysSorted(conflicts: seq<Conflict>) {
    forall i, j :: 0 <= i < j < |conflicts| ==> Less(conflicts[i].key, conflicts[j].key)
  }

  /** The merge result is right on every key there is. */
  ghost predicate Merged(bases: seq<Secrets>, heads: seq<Secrets>, choices: map<string, Choice>, out: Secrets,
                         conflicts: seq<Conflict>) {
    && KeysSorted(conflicts)
    && forall key :: MergedKey(bases, heads, choices, key, Get(out, key), ReportedFor(conflicts, key))
  }

  method AllKeys(maps: seq<Secrets>) returns (keys: set<string>)
    ensures forall k :: k in keys <==> exists i :: 0 <= i < |maps| && k in maps[i]
  {
    keys := {};
    for i := 0 to |maps|
      invariant forall k :: k in keys <==> exists j :: 0 <= j < i && k in maps[j]
    {
      keys := keys + maps[i].Keys;
    }
  }

  ghost predicate DoneKeys(bases: seq<Secrets>, heads: seq<Secrets>, choices: map<string, Choice>, done: seq<string>,
                           out: Secrets, conflicts: seq<Conflict>) {
    && KeysSorted(conflicts)
    && (forall k :: k in done ==> MergedKey(bases, heads, choices, k, Get(out, k), ReportedFor(conflicts, k)))
    && (forall k :: k in out ==> k in done)
    && (forall i :: 0 <= i < |conflicts| ==> conflicts[i].key in done)
  }

  lemma NextKey(bases: seq<Secrets>, heads: seq<Secrets>, choices: map<string, Choice>, done: seq<string>,
                out: Secrets, conflicts: seq<Conflict>, key: string, out2: Secrets, conflicts2: seq<Conflict>)
    requires DoneKeys(bases, heads, choices, done, out, conflicts)
    requires key !in done && forall k :: k in done ==> Less(k, key)
    requires out2 == out || (key in out2 && out2 == out[key := out2[key]])
    requires conflicts2 == conflicts || exists c: seq<Value> :: conflicts2 == conflicts + [Conflict(key, c)]
    requires MergedKey(bases, heads, choices, key, Get(out2, key), ReportedFor(conflicts2, key))
    ensures DoneKeys(bases, heads, choices, done + [key], out2, conflicts2)
  {
    forall k | k in done
      ensures Get(out2, k) == Get(out, k) && ReportedFor(conflicts2, k) == ReportedFor(conflicts, k)
    {
      ReportedSame(conflicts, conflicts2, key, k);
    }
  }

  lemma ReportedSame(conflicts: seq<Conflict>, conflicts2: seq<Conflict>, key: string, k: string)
    requires KeysSorted(conflicts) && k != key
    requires forall i :: 0 <= i < |conflicts| ==> Less(conflicts[i].key, key)
    requires conflicts2 == conflicts || exists c: seq<Value> :: conflicts2 == conflicts + [Conflict(key, c)]
    ensures ReportedFor(conflicts2, k) == ReportedFor(conflicts, k)
  {
    LessIsStrictTotal();
    assert forall i :: 0 <= i < |conflicts2| ==>
             (i < |conflicts| && conflicts2[i] == conflicts[i]) || conflicts2[i].key == key;
    if exists i :: 0 <= i < |conflicts| && conflicts[i].key == k {
      var i :| 0 <= i < |conflicts| && conflicts[i].key == k;
      ReportedAt(conflicts, i);
      assert conflicts2[i] == conflicts[i];
      ReportedAt(conflicts2, i);
    }
  }

  lemma KeysDistinct(conflicts: seq<Conflict>)
    requires KeysSorted(conflicts)
    ensures forall a, b :: 0 <= a < b < |conflicts| ==> conflicts[a].key != conflicts[b].key
  {
    LessIsStrictTotal();
    forall a, b | 0 <= a < b < |conflicts| ensures conflicts[a].key != conflicts[b].key {
      assert Less(conflicts[a].key, conflicts[b].key);
    }
  }

  lemma ReportedAt(conflicts: seq<Conflict>, i: nat)
    requires KeysSorted(conflicts) && i < |conflicts|
    ensures ReportedFor(conflicts, conflicts[i].key) == Some(conflicts[i].candidates)
  {
    KeysDistinct(conflicts);
    var j :| 0 <= j < |conflicts| && conflicts[j].key == conflicts[i].key
             && ReportedFor(conflicts, conflicts[i].key) == Some(conflicts[j].candidates);
  }

  method Merge(bases: seq<Secrets>, heads: seq<Secrets>, choices: map<string, Choice>)
    returns (out: Secrets, conflicts: seq<Conflict>)
    ensures Merged(bases, heads, choices, out, conflicts)
  {
    var all := BasesOf(bases);
    var keys := AllKeys(all + heads);
    LessIsStrictTotal();
    var sorted := SortedListing(Less, keys);
    out, conflicts := map[], [];
    for i := 0 to |sorted|
      invariant DoneKeys(bases, heads, choices, sorted[..i], out, conflicts)
    {
      var k := sorted[i];
      assert sorted[..i + 1] == sorted[..i] + [k];
      ghost var out0, conflicts0 := out, conflicts;
      Fresh(conflicts, k);
      var v := ResolveKey(k, all, heads);
      if v.None? {
        if k in choices {
          if choices[k].Keep? {
            out := out[k := choices[k].value];
          }
        } else {
          var cs := Candidates(k, heads);
          conflicts := conflicts + [Conflict(k, cs)];
          ReportedAt(conflicts, |conflicts| - 1);
        }
      } else if v.value.Text? {
        out := out[k := v.value.text];
      }
      NextKey(bases, heads, choices, sorted[..i], out0, conflicts0, k, out, conflicts);
    }
    assert sorted[..|sorted|] == sorted;
    forall key | key !in sorted
      ensures MergedKey(bases, heads, choices, key, Get(out, key), ReportedFor(conflicts, key))
    {
      assert key !in Elements(sorted);
      assert forall i :: 0 <= i < |all + heads| ==> key !in (all + heads)[i];
      UnknownKey(all, heads, key);
      Fresh(conflicts, key);
    }
  }

  lemma Fresh(conflicts: seq<Conflict>, key: string)
    requires forall i :: 0 <= i < |conflicts| ==> conflicts[i].key != key
    ensures ReportedFor(conflicts, key).None?
  {
  }

  lemma UnknownKey(bases: seq<Secrets>, heads: seq<Secrets>, key: string)
    requires forall i :: 0 <= i < |bases + heads| ==> key !in (bases + heads)[i]
    ensures Settles(bases, heads, key, Deleted)
  {
    forall m | m in bases || m in heads ensures Get(m, key) == Deleted {
      assert m in bases + heads;
    }
  }

  // ----- what no merge ever does

  lemma ConflictsFromMerge(bases: seq<Secrets>, heads: seq<Secrets>, choices: map<string, Choice>, out: Secrets,
                           conflicts: seq<Conflict>, i: nat)
    requires Merged(bases, heads, choices, out, conflicts) && i < |conflicts|
    ensures var key := conflicts[i].key;
            && MergedKey(bases, heads, choices, key, Get(out, key), Some(conflicts[i].candidates))
            && Conflicted(BasesOf(bases), heads, key) && key !in choices
  {
    ReportedAt(conflicts, i);
    assert MergedKey(bases, heads, choices, conflicts[i].key, Get(out, conflicts[i].key),
                     ReportedFor(conflicts, conflicts[i].key));
  }

  /** The person's choice is what the map says about the key. */
  predicate IsChoice(c: Choice, key: string, out: Secrets) {
    if c.Keep? then key in out && out[key] == c.value else key !in out
  }

  /** A key merges without asking when every base leads to the same value: the heads that differ from the base agree on it,
      or none differs. A choice for such a key is ignored. */
  lemma AgreedKeyMerges(bases: seq<Secrets>, heads: seq<Secrets>, choices: map<string, Choice>, out: Secrets,
                        conflicts: seq<Conflict>, key: string, v: Value)
    requires Merged(bases, heads, choices, out, conflicts)
    requires forall b, h :: b in BasesOf(bases) && h in heads ==> Get(h, key) == Get(b, key) || Get(h, key) == v
    requires forall b :: b in BasesOf(bases) ==>
               if Get(b, key) == v then forall h :: h in heads ==> Get(h, key) == v
               else exists h :: h in heads && Get(h, key) == v
    ensures Get(out, key) == v && forall i :: 0 <= i < |conflicts| ==> conflicts[i].key != key
  {
    var all := BasesOf(bases);
    assert Settles(all, heads, key, v);
    assert MergedKey(bases, heads, choices, key, Get(out, key), ReportedFor(conflicts, key));
    SettlesUnique(all, heads, key, v, Get(out, key));
  }

  /** Nothing is made up: what a merge says about a key some head says, unless a person settled it or is asked. */
  lemma NothingMadeUp(bases: seq<Secrets>, heads: seq<Secrets>, choices: map<string, Choice>, out: Secrets,
                      conflicts: seq<Conflict>, key: string)
    requires Merged(bases, heads, choices, out, conflicts) && heads != []
    ensures || (exists h :: h in heads && Get(out, key) == Get(h, key))
            || (key in choices && IsChoice(choices[key], key, out))
            || (key !in out && exists i :: 0 <= i < |conflicts| && conflicts[i].key == key)
  {
    var all := BasesOf(bases);
    assert MergedKey(bases, heads, choices, key, Get(out, key), ReportedFor(conflicts, key));
    if !Conflicted(all, heads, key) {
      assert Agrees(Get(all[0], key), key, heads, Get(out, key));
      assert heads[0] in heads;
    }
  }

  /** No update is lost: where some head differs from some base on a key, the outcome is that head's value, or a person's
      choice on a key the merge could not settle, or an unsettled conflict that offers it. */
  lemma NoLostUpdate(bases: seq<Secrets>, heads: seq<Secrets>, choices: map<string, Choice>, out: Secrets,
                     conflicts: seq<Conflict>, key: string, h: Secrets, b: Secrets)
    requires Merged(bases, heads, choices, out, conflicts)
    requires h in heads && b in BasesOf(bases) && Get(h, key) != Get(b, key)
    ensures || Get(out, key) == Get(h, key)
            || (Conflicted(BasesOf(bases), heads, key) && key in choices && IsChoice(choices[key], key, out))
            || (exists i :: 0 <= i < |conflicts| && conflicts[i].key == key &&
                             Get(h, key) in conflicts[i].candidates && Get(out, key) == Deleted)
  {
    assert MergedKey(bases, heads, choices, key, Get(out, key), ReportedFor(conflicts, key));
    if !Conflicted(BasesOf(bases), heads, key) {
      assert Agrees(Get(b, key), key, heads, Get(out, key));
    } else if key !in choices {
      var i :| 0 <= i < |conflicts| && conflicts[i].key == key &&
               ReportedFor(conflicts, key) == Some(conflicts[i].candidates);
      assert Get(h, key) in Elements(conflicts[i].candidates);
    }
  }

  /** A conflict always offers at least two values that heads hold: a key all heads agree on is never reported. */
  lemma ConflictMeansHeadsDiffer(bases: seq<Secrets>, heads: seq<Secrets>, choices: map<string, Choice>, out: Secrets,
                                 conflicts: seq<Conflict>, i: nat)
    requires Merged(bases, heads, choices, out, conflicts) && i < |conflicts| && heads != []
    ensures exists h1, h2 :: h1 in heads && h2 in heads && Get(h1, conflicts[i].key) != Get(h2, conflicts[i].key)
    ensures |conflicts[i].candidates| >= 2
  {
    var key := conflicts[i].key;
    ConflictsFromMerge(bases, heads, choices, out, conflicts, i);
    if forall h1, h2 :: h1 in heads && h2 in heads ==> Get(h1, key) == Get(h2, key) {
      UnanimousSettles(BasesOf(bases), heads, key);
    }
    var h1, h2 :| h1 in heads && h2 in heads && Get(h1, key) != Get(h2, key);
    TwoMembers(conflicts[i].candidates, Get(h1, key), Get(h2, key));
  }

  lemma TwoMembers(cs: seq<Value>, v: Value, w: Value)
    requires v in Elements(cs) && w in Elements(cs) && v != w
    ensures |cs| >= 2
  {
  }

  lemma UnanimousSettles(bases: seq<Secrets>, heads: seq<Secrets>, key: string)
    requires heads != [] && forall h1, h2 :: h1 in heads && h2 in heads ==> Get(h1, key) == Get(h2, key)
    ensures Settles(bases, heads, key, Get(heads[0], key))
  {
    assert heads[0] in heads;
    forall b | b in bases ensures Agrees(Get(b, key), key, heads, Get(heads[0], key)) {
      assert forall h :: h in heads ==> Get(h, key) == Get(heads[0], key);
    }
  }

  /** With every head among the bases, exactly the keys all heads agree on merge: a new member who cannot read the
      real base never loses a differing value. */
  lemma HeadsAsBases(bases: seq<Secrets>, heads: seq<Secrets>, key: string)
    requires heads != [] && forall h :: h in heads ==> h in bases
    ensures !Conflicted(bases, heads, key) <==>
              forall h1, h2 :: h1 in heads && h2 in heads ==> Get(h1, key) == Get(h2, key)
  {
    if !Conflicted(bases, heads, key) {
      var v :| Settles(bases, heads, key, v);
      forall h1, h2 | h1 in heads && h2 in heads ensures Get(h1, key) == Get(h2, key) {
        assert Agrees(Get(h1, key), key, heads, v) && Agrees(Get(h2, key), key, heads, v);
      }
    } else if forall h1, h2 :: h1 in heads && h2 in heads ==> Get(h1, key) == Get(h2, key) {
      UnanimousSettles(bases, heads, key);
    }
  }

  /** So where every head is among the bases, a key on which two heads differ is settled by a choice, or absent and reported
      with every head's value. */
  lemma DifferenceIsReported(bases: seq<Secrets>, heads: seq<Secrets>, choices: map<string, Choice>, out: Secrets,
                             conflicts: seq<Conflict>, key: string, h1: Secrets, h2: Secrets)
    requires Merged(bases, heads, choices, out, conflicts) && forall h :: h in heads ==> h in bases
    requires h1 in heads && h2 in heads && Get(h1, key) != Get(h2, key)
    ensures if key in choices then IsChoice(choices[key], key, out)
            else key !in out && exists c :: c in conflicts && c.key == key && OffersAll(c, heads)
  {
    HeadsAsBases(bases, heads, key);
    assert MergedKey(bases, heads, choices, key, Get(out, key), ReportedFor(conflicts, key));
    if key !in choices {
      var i :| 0 <= i < |conflicts| && conflicts[i].key == key &&
               ReportedFor(conflicts, key) == Some(conflicts[i].candidates);
      var c := conflicts[i];
      forall h | h in heads ensures Get(h, key) in c.candidates {
        assert Get(h, key) in Elements(c.candidates);
      }
      assert c in conflicts && OffersAll(c, heads);
    }
  }

  /** The conflict offers what each of these says about its key. */
  ghost predicate OffersAll(c: Conflict, heads: seq<Secrets>) {
    forall h :: h in heads ==> Get(h, c.key) in c.candidates
  }

  ghost predicate SameMaps(a: seq<Secrets>, b: seq<Secrets>) {
    forall m :: m in a <==> m in b
  }

  lemma SettlesIgnoresOrder(bases: seq<Secrets>, bases2: seq<Secrets>, heads: seq<Secrets>, heads2: seq<Secrets>,
                            key: string, v: Value)
    requires SameMaps(bases, bases2) && SameMaps(heads, heads2)
    ensures Settles(bases, heads, key, v) <==> Settles(bases2, heads2, key, v)
  {
    forall b: Value ensures Agrees(b, key, heads, v) <==> Agrees(b, key, heads2, v) {
    }
  }

  /** Neither the order of the heads nor that of the bases shows in the merged map or in the conflict list. */
  lemma MergeIgnoresOrder(bases: seq<Secrets>, bases2: seq<Secrets>, heads: seq<Secrets>, heads2: seq<Secrets>,
                          choices: map<string, Choice>, out: Secrets, out2: Secrets, conflicts: seq<Conflict>,
                          conflicts2: seq<Conflict>)
    requires SameMaps(bases, bases2) && SameMaps(heads, heads2)
    requires Merged(bases, heads, choices, out, conflicts) && Merged(bases2, heads2, choices, out2, conflicts2)
    ensures out == out2 && conflicts == conflicts2
  {
    SameBases(bases, bases2);
    forall key ensures Get(out, key) == Get(out2, key) && ReportedFor(conflicts, key) == ReportedFor(conflicts2, key) {
      MergedKeySame(bases, bases2, heads, heads2, choices, key, Get(out, key), Get(out2, key),
                    ReportedFor(conflicts, key), ReportedFor(conflicts2, key));
    }
    assert forall key :: (key in out <==> Get(out, key).Text?) && (key in out2 <==> Get(out2, key).Text?);
    assert forall key :: key in out ==> Get(out, key) == Text(out[key]) && Get(out2, key) == Text(out2[key]);
    SameReports(conflicts, conflicts2);
  }

  lemma SameBases(bases: seq<Secrets>, bases2: seq<Secrets>)
    requires SameMaps(bases, bases2)
    ensures SameMaps(BasesOf(bases), BasesOf(bases2))
  {
    assert bases != [] ==> bases[0] in bases2;
    assert bases2 != [] ==> bases2[0] in bases;
  }

  lemma MergedKeySame(bases: seq<Secrets>, bases2: seq<Secrets>, heads: seq<Secrets>, heads2: seq<Secrets>,
                      choices: map<string, Choice>, key: string, v: Value, v2: Value, cs: Option<seq<Value>>,
                      cs2: Option<seq<Value>>)
    requires SameMaps(BasesOf(bases), BasesOf(bases2)) && SameMaps(heads, heads2)
    requires MergedKey(bases, heads, choices, key, v, cs) && MergedKey(bases2, heads2, choices, key, v2, cs2)
    ensures v == v2 && cs == cs2
  {
    forall w { SettlesIgnoresOrder(BasesOf(bases), BasesOf(bases2), heads, heads2, key, w); }
    if !Conflicted(BasesOf(bases), heads, key) {
      SettlesUnique(BasesOf(bases), heads, key, v, v2);
    } else if key !in choices {
      ValueLessIsStrictTotal();
      assert ValuesOf(heads, key) == ValuesOf(heads2, key);
      assert forall x :: x in cs.value <==> x in Elements(cs.value);
      assert forall x :: x in cs2.value <==> x in Elements(cs2.value);
      SortedUnique(ValueLess, cs.value, cs2.value);
    }
  }

  function KeyList(conflicts: seq<Conflict>): (ks: seq<string>)
    ensures |ks| == |conflicts| && forall i :: 0 <= i < |ks| ==> ks[i] == conflicts[i].key
  {
    seq(|conflicts|, i requires 0 <= i < |conflicts| => conflicts[i].key)
  }

  lemma SameReports(a: seq<Conflict>, b: seq<Conflict>)
    requires KeysSorted(a) && KeysSorted(b)
    requires forall key :: ReportedFor(a, key) == ReportedFor(b, key)
    ensures a == b
  {
    LessIsStrictTotal();
    forall k | k in KeyList(a) ensures k in KeyList(b) {
      var i :| 0 <= i < |a| && KeyList(a)[i] == k;
      ReportedAt(a, i);
      var j :| 0 <= j < |b| && b[j].key == k;
      assert KeyList(b)[j] == k;
    }
    forall k | k in KeyList(b) ensures k in KeyList(a) {
      var i :| 0 <= i < |b| && KeyList(b)[i] == k;
      ReportedAt(b, i);
      var j :| 0 <= j < |a| && a[j].key == k;
      assert KeyList(a)[j] == k;
    }
    SortedUnique(Less, KeyList(a), KeyList(b));
    forall i | 0 <= i < |a| ensures a[i] == b[i] {
      assert KeyList(a)[i] == KeyList(b)[i];
      ReportedAt(a, i);
      ReportedAt(b, i);
    }
  }

  /** Two heads that changed different keys of one base: both edits survive and nothing is asked. */
  lemma DisjointEditsSurvive(base: Secrets, left: Secrets, right: Secrets, choices: map<string, Choice>, out: Secrets,
                             conflicts: seq<Conflict>)
    requires forall key :: Get(left, key) == Get(base, key) || Get(right, key) == Get(base, key)
    requires Merged([base], [left, right], choices, out, conflicts)
    ensures conflicts == []
    ensures forall key :: Get(out, key) == if Get(left, key) != Get(base, key) then Get(left, key) else Get(right, key)
  {
    var heads := [left, right];
    forall key
      ensures Get(out, key) == (if Get(left, key) != Get(base, key) then Get(left, key) else Get(right, key))
      ensures ReportedFor(conflicts, key).None?
    {
      var v := if Get(left, key) != Get(base, key) then Get(left, key) else Get(right, key);
      assert left in heads && right in heads;
      assert Agrees(Get(base, key), key, heads, v);
      assert Settles([base], heads, key, v);
      assert MergedKey([base], heads, choices, key, Get(out, key), ReportedFor(conflicts, key));
      SettlesUnique([base], heads, key, v, Get(out, key));
    }
    if conflicts != [] {
      ReportedAt(conflicts, 0);
    }
  }
}
