/** Concealing secret values in a command's output as it streams through, however it is cut (cli/mask.go). */
module Mask {
  import opened Orders

  const CONCEALED := "<concealed by enbu>"

  const MIN_MASKED_LENGTH := 6

  /** What reaches the output: a byte as it was written, or a value replaced by the notice. */
  datatype Item = Plain(c: char) | Masked(value: string)

  function Raw(x: Item): string {
    if x.Plain? then [x.c] else x.value
  }

  function View(x: Item): string {
    if x.Plain? then [x.c] else CONCEALED
  }

  function Text(bytes: Item -> string, items: seq<Item>): string {
    if items == [] then "" else Text(bytes, items[..|items| - 1]) + bytes(items[|items| - 1])
  }

  /** The bytes that were written. */
  function Expand(items: seq<Item>): string {
    Text(Raw, items)
  }

  /** The bytes that the output receives. */
  function Shown(items: seq<Item>): string {
    Text(View, items)
  }

  function Plains(b: string): seq<Item> {
    seq(|b|, i requires 0 <= i < |b| => Plain(b[i]))
  }

  lemma Assoc(a: string, b: string, c: string)
    ensures (a + b) + c == a + (b + c)
  {
  }

  lemma {:induction false} TextAppend(bytes: Item -> string, a: seq<Item>, b: seq<Item>)
    ensures Text(bytes, a + b) == Text(bytes, a) + Text(bytes, b)
  {
    if b == [] {
      assert a + b == a;
    } else {
      var c, x := b[..|b| - 1], b[|b| - 1];
      TextAppend(bytes, a, c);
      assert (a + b)[..|a + b| - 1] == a + c && (a + b)[|a + b| - 1] == x;
      Assoc(Text(bytes, a), Text(bytes, c), bytes(x));
    }
  }

  lemma {:induction false} TextPlains(bytes: Item -> string, b: string)
    requires forall c :: bytes(Plain(c)) == [c]
    ensures Text(bytes, Plains(b)) == b
  {
    if b != "" {
      TextPlains(bytes, b[..|b| - 1]);
      assert Plains(b)[..|b| - 1] == Plains(b[..|b| - 1]);
    }
  }

  // ----- the values

  predicate IsBreak(c: char) {
    c == '\r' || c == '\n'
  }

  /** The maximal runs of a value without line breaks; `run` is the one under way. */
  function Lines(v: string, run: string): seq<string> {
    var rest := if run == "" then [] else [run];
    if v == "" then rest
    else if IsBreak(v[0]) then rest + Lines(v[1..], "")
    else Lines(v[1..], run + [v[0]])
  }

  /** A maximal run without line breaks. */
  ghost predicate RunAt(v: string, i: int, j: int) {
    && 0 <= i < j <= |v|
    && (forall k :: i <= k < j ==> !IsBreak(v[k]))
    && (i == 0 || IsBreak(v[i - 1])) && (j == |v| || IsBreak(v[j]))
  }

  ghost predicate LineFrom(v: string, p: nat, l: string) {
    exists i, j :: p <= i && RunAt(v, i, j) && l == v[i..j]
  }

  /** The lines of a value are exactly its maximal runs without line breaks. */
  lemma {:induction false} LinesFrom(v: string, p: nat, i: nat, l: string)
    requires p <= i <= |v| && (p == 0 || IsBreak(v[p - 1])) && forall k :: p <= k < i ==> !IsBreak(v[k])
    ensures l in Lines(v[i..], v[p..i]) <==> LineFrom(v, p, l)
    decreases |v| - i
  {
    if i < |v| {
      assert v[i..][1..] == v[i + 1..];
      if IsBreak(v[i]) {
        assert v[i + 1..i + 1] == "";
        LinesFrom(v, i + 1, i + 1, l);
        if p < i && l == v[p..i] {
          assert RunAt(v, p, i);
        }
        assert LineFrom(v, p, l) <==> LineFrom(v, i + 1, l) || (p < i && l == v[p..i]);
      } else {
        assert v[p..i] + [v[i]] == v[p..i + 1];
        LinesFrom(v, p, i + 1, l);
      }
    } else if p < i && l == v[p..i] {
      assert RunAt(v, p, i);
    }
  }

  lemma LinesAreRuns(v: string, l: string)
    ensures l in Lines(v, "") <==> LineFrom(v, 0, l)
  {
    assert v[0..] == v && v[0..0] == "";
    LinesFrom(v, 0, 0, l);
  }

  predicate LongerFirst(a: string, b: string) {
    |a| > |b| || (|a| == |b| && Less(a, b))
  }

  predicate NonEmpty(values: seq<string>) {
    forall v :: v in values ==> v != ""
  }

  ghost predicate LongestFirst(values: seq<string>) {
    NonEmpty(values) && forall i, j :: 0 <= i < j < |values| ==> |values[i]| >= |values[j]|
  }

  /** A secret is a value to mask, and so is each of its lines when it has several, unless it is too short. */
  ghost predicate ToMask(secrets: set<string>, v: string) {
    |v| >= MIN_MASKED_LENGTH && exists s :: s in secrets &&
                                            (v == s || ((exists c :: c in s && IsBreak(c)) && v in Lines(s, "")))
  }

  /** Adds the candidates that are long enough and not listed yet. */
  method AddValues(values: seq<string>, candidates: seq<string>) returns (all: seq<string>)
    requires NoDup(values)
    ensures NoDup(all)
    ensures forall v :: v in all <==> v in values || (v in candidates && |v| >= MIN_MASKED_LENGTH)
  {
    all := values;
    for i := 0 to |candidates|
      invariant NoDup(all)
      invariant forall v :: v in all <==> v in values || (v in candidates[..i] && |v| >= MIN_MASKED_LENGTH)
    {
      if |candidates[i]| >= MIN_MASKED_LENGTH && candidates[i] !in all {
        all := all + [candidates[i]];
      }
      assert candidates[..i + 1] == candidates[..i] + [candidates[i]];
    }
  }

  lemma LongerFirstIsStrictTotal()
    ensures StrictTotal(LongerFirst)
  {
    LessIsStrictTotal();
    forall a, b, c | LongerFirst(a, b) && LongerFirst(b, c) ensures LongerFirst(a, c) {
      if |a| == |c| { LessTrans(a, b, c); }
    }
  }

  /** Collects the masked texts, each once, and sorts them by length; the set is walked in an arbitrary order. */
  method MaskedValues(secrets: set<string>) returns (values: seq<string>)
    ensures LongestFirst(values) && NoDup(values)
    ensures forall v :: v in values <==> ToMask(secrets, v)
  {
    values := [];
    var todo := secrets;
    while todo != {}
      invariant todo <= secrets && NoDup(values)
      invariant forall v :: v in values <==> ToMask(secrets - todo, v)
      decreases todo
    {
      var s :| s in todo;
      ghost var done := secrets - todo;
      var candidates := [s];
      if exists c :: c in s && IsBreak(c) {
        candidates := candidates + Lines(s, "");
      }
      values := AddValues(values, candidates);
      todo := todo - {s};
      assert secrets - todo == done + {s};
      assert forall v :: ToMask(done + {s}, v) <==> ToMask(done, v) || ToMask({s}, v);
      assert forall v :: ToMask({s}, v) <==> v in candidates && |v| >= MIN_MASKED_LENGTH;
    }
    assert secrets - {} == secrets;
    LongerFirstIsStrictTotal();
    SortSorts(LongerFirst, values);
    values := Sort(LongerFirst, values);
    assert SortedBy(LongerFirst, values);
  }

  // ----- finding values

  ghost predicate StartsWithValue(values: seq<string>, b: string) {
    exists v :: v in values && v <= b
  }

  ghost predicate ContainsValue(values: seq<string>, b: string) {
    exists i :: 0 <= i <= |b| && StartsWithValue(values, b[i..])
  }

  /** What was seen is the start of a value of which more must still arrive. */
  ghost predicate Begins(values: seq<string>, b: string) {
    exists v :: v in values && |b| < |v| && b <= v
  }

  /** The length of the longest value that `b` starts with, or 0. */
  ghost function LongestAt(values: seq<string>, b: string): nat {
    if values == [] then 0
    else
      var n := LongestAt(values[1..], b);
      if values[0] <= b && |values[0]| > n then |values[0]| else n
  }

  lemma {:induction false} LongestAtIs(values: seq<string>, b: string)
    ensures LongestAt(values, b) <= |b|
    ensures forall v :: v in values && v <= b ==> |v| <= LongestAt(values, b)
    ensures LongestAt(values, b) > 0 ==> b[..LongestAt(values, b)] in values
    ensures NonEmpty(values) ==> (LongestAt(values, b) > 0 <==> StartsWithValue(values, b))
  {
    if values != [] {
      assert forall v :: v in values <==> v == values[0] || v in values[1..];
      LongestAtIs(values[1..], b);
    }
  }

  /** The position of the first occurrence of `v` in `b`, if there is one. */
  method Index(b: string, v: string) returns (at: Option<nat>)
    ensures at.None? ==> forall i :: 0 <= i <= |b| ==> !(v <= b[i..])
    ensures at.Some? ==> at.value <= |b| && v <= b[at.value..] && forall i :: 0 <= i < at.value ==> !(v <= b[i..])
  {
    var i := 0;
    while i <= |b|
      invariant 0 <= i <= |b| + 1
      invariant forall k :: 0 <= k < i ==> !(v <= b[k..])
    {
      if v <= b[i..] {
        return Some(i);
      }
      i := i + 1;
    }
    at := None;
  }

  /** Scans the list once and keeps the smallest position; since longer values come first, ties need no comparison. */
  method FirstMatch(values: seq<string>, b: string) returns (at: Option<nat>, n: nat)
    requires LongestFirst(values)
    ensures at.None? ==> !ContainsValue(values, b)
    ensures at.Some? ==>
              at.value < |b| && n == LongestAt(values, b[at.value..]) > 0 && StartsWithValue(values, b[at.value..])
    ensures at.Some? ==> forall i :: 0 <= i < at.value ==> !StartsWithValue(values, b[i..])
  {
    at, n := None, 0;
    for k := 0 to |values|
      invariant at.None? ==> forall m, i :: 0 <= m < k && 0 <= i <= |b| ==> !(values[m] <= b[i..])
      invariant at.Some? ==> at.value < |b| && n > 0
      invariant at.Some? ==> forall m, i :: 0 <= m < k && 0 <= i < at.value ==> !(values[m] <= b[i..])
      invariant at.Some? ==> forall m :: 0 <= m < k && values[m] <= b[at.value..] ==> |values[m]| <= n
      invariant at.Some? ==> exists m :: 0 <= m < k && |values[m]| == n && values[m] <= b[at.value..]
    {
      var i := Index(b, values[k]);
      if i.Some? && (at.None? || i.value < at.value) {
        assert values[k] in values && values[k] != "" && values[k] <= b[i.value..];
        at, n := i, |values[k]|;
      }
    }
    if at.Some? {
      var rest := b[at.value..];
      LongestAtIs(values, rest);
      var longest := rest[..LongestAt(values, rest)];
      assert longest in values && longest <= rest;
    }
  }

  /** After a match of length `n`: must the caller wait, because more output could turn the match into a longer one? */
  method BeginsLonger(values: seq<string>, b: string, n: nat) returns (longer: bool)
    requires n <= |b|
    ensures longer <==> Begins(values, b)
  {
    for k := 0 to |values|
      invariant forall m :: 0 <= m < k ==> !(|b| < |values[m]| && b <= values[m])
    {
      if |values[k]| > n && |b| < |values[k]| && b <= values[k] {
        return true;
      }
    }
    longer := false;
  }

  /** How much of the end of `b` must be kept back; no longer end of `b` is a proper prefix of a value. */
  method PrefixLen(values: seq<string>, b: string) returns (longest: nat)
    requires NonEmpty(values)
    ensures longest <= |b| && (longest > 0 ==> Begins(values, b[|b| - longest..]))
    ensures forall j :: 0 <= j < |b| - longest ==> !Begins(values, b[j..])
  {
    longest := 0;
    for k := 0 to |values|
      invariant longest <= |b| && (longest > 0 ==> Begins(values, b[|b| - longest..]))
      invariant forall m, j :: 0 <= m < k && 0 <= j < |b| - longest ==> !(|b| - j < |values[m]| && b[j..] <= values[m])
    {
      var v := values[k];
      ghost var before := longest;
      var j := if |b| - |v| + 1 > 0 then |b| - |v| + 1 else 0;
      while j < |b| - longest
        invariant 0 <= j
        invariant longest == before
        invariant forall i :: 0 <= i < j && i < |b| - longest ==> !(|b| - i < |v| && b[i..] <= v)
        decreases |b| - j
      {
        if b[j] == v[0] && b[j..] <= v {
          longest := |b| - j;
          assert b[|b| - longest..] == b[j..];
          break;
        }
        j := j + 1;
      }
    }
  }

  // ----- what concealing amounts to, one byte or value at a time

  datatype Scanned = Scanned(items: seq<Item>, held: string)

  function Prepend(x: seq<Item>, s: Scanned): Scanned {
    Scanned(x + s.items, s.held)
  }

  /** A byte that starts no value passes, unless more output may complete a value from here; a value is replaced whole,
      unless a longer one may still be arriving. */
  ghost function Scan(values: seq<string>, b: string, final: bool): Scanned
    decreases |b|
  {
    var n := LongestAt(values, b);
    if b == "" then Scanned([], "")
    else if 0 < n <= |b| then
      if !final && Begins(values, b) then Scanned([], b)
      else Prepend([Masked(b[..n])], Scan(values, b[n..], final))
    else if !final && Begins(values, b) && !ContainsValue(values, b) then Scanned([], b)
    else Prepend([Plain(b[0])], Scan(values, b[1..], final))
  }

  /** One leftmost-longest pass over the whole input. */
  ghost function Pass(values: seq<string>, b: string): seq<Item>
    decreases |b|
  {
    var n := LongestAt(values, b);
    if b == "" then []
    else if 0 < n <= |b| then [Masked(b[..n])] + Pass(values, b[n..])
    else [Plain(b[0])] + Pass(values, b[1..])
  }

  lemma {:induction false} FinalScanIsPass(values: seq<string>, b: string)
    ensures Scan(values, b, true) == Scanned(Pass(values, b), "")
    decreases |b|
  {
    var n := LongestAt(values, b);
    if b != "" {
      FinalScanIsPass(values, if 0 < n <= |b| then b[n..] else b[1..]);
    }
  }

  lemma ContainsTail(values: seq<string>, b: string)
    requires b != "" && !StartsWithValue(values, b)
    ensures ContainsValue(values, b) <==> ContainsValue(values, b[1..])
  {
    if ContainsValue(values, b) {
      var i :| 0 <= i <= |b| && StartsWithValue(values, b[i..]);
      assert b[0..] == b;
      assert b[1..][i - 1..] == b[i..];
    }
    if ContainsValue(values, b[1..]) {
      var i :| 0 <= i <= |b[1..]| && StartsWithValue(values, b[1..][i..]);
      assert b[1..][i..] == b[i + 1..];
    }
  }

  lemma ScanPasses(values: seq<string>, b: string, final: bool)
    requires NonEmpty(values) && b != "" && !StartsWithValue(values, b)
    requires final || ContainsValue(values, b) || !Begins(values, b)
    ensures Scan(values, b, final) == Prepend([Plain(b[0])], Scan(values, b[1..], final))
  {
    LongestAtIs(values, b);
  }

  lemma ScanMasks(values: seq<string>, b: string, final: bool)
    requires NonEmpty(values) && StartsWithValue(values, b) && (final || !Begins(values, b))
    ensures 0 < LongestAt(values, b) <= |b|
    ensures Scan(values, b, final) ==
              Prepend([Masked(b[..LongestAt(values, b)])], Scan(values, b[LongestAt(values, b)..], final))
  {
    LongestAtIs(values, b);
  }

  lemma ScanHolds(values: seq<string>, b: string)
    requires NonEmpty(values) && Begins(values, b) && (StartsWithValue(values, b) || !ContainsValue(values, b))
    ensures Scan(values, b, false) == Scanned([], b)
  {
    LongestAtIs(values, b);
  }

  lemma PassNext(b: string, p: nat, i: nat, s: Scanned)
    requires p < i <= |b|
    ensures b[p..][1..] == b[p + 1..] && b[p..][0] == b[p]
    ensures Prepend([Plain(b[p])], Prepend(Plains(b[p + 1..i]), s)) == Prepend(Plains(b[p..i]), s)
  {
    assert [Plain(b[p])] + Plains(b[p + 1..i]) == Plains(b[p..i]);
    PrependTwice([Plain(b[p])], Plains(b[p + 1..i]), s);
  }

  lemma ContainsAt(values: seq<string>, b: string, p: nat, i: nat)
    requires p <= i <= |b| && StartsWithValue(values, b[i..])
    ensures ContainsValue(values, b[p..])
  {
    assert b[p..][i - p..] == b[i..];
  }

  /** Scanning passes everything from `p` to the first value. */
  lemma {:induction false} ScanToMatch(values: seq<string>, b: string, p: nat, i: nat, final: bool)
    requires NonEmpty(values) && p <= i < |b| && StartsWithValue(values, b[i..])
    requires forall k :: p <= k < i ==> !StartsWithValue(values, b[k..])
    ensures Scan(values, b[p..], final) == Prepend(Plains(b[p..i]), Scan(values, b[i..], final))
    decreases i - p
  {
    if p < i {
      ContainsAt(values, b, p, i);
      ScanPasses(values, b[p..], final);
      PassNext(b, p, i, Scan(values, b[i..], final));
      ScanToMatch(values, b, p + 1, i, final);
    } else {
      assert Plains(b[p..i]) == [];
    }
  }

  lemma ScanEnd(values: seq<string>, b: string, end: nat, final: bool)
    requires NonEmpty(values) && end <= |b|
    requires forall k :: end <= k <= |b| ==> !StartsWithValue(values, b[k..])
    requires end < |b| ==> !final && Begins(values, b[end..])
    ensures Scan(values, b[end..], final) == Scanned([], b[end..])
  {
    if end < |b| {
      NoneInside(values, b, end);
      ScanHolds(values, b[end..]);
    }
  }

  /** Without a value, scanning passes everything but the longest end that begins one. */
  lemma {:induction false} ScanRest(values: seq<string>, b: string, p: nat, end: nat, final: bool)
    requires NonEmpty(values) && p <= end <= |b|
    requires forall k :: p <= k <= |b| ==> !StartsWithValue(values, b[k..])
    requires end < |b| ==> !final && Begins(values, b[end..])
    requires !final ==> forall k :: p <= k < end ==> !Begins(values, b[k..])
    ensures Scan(values, b[p..], final) == Scanned(Plains(b[p..end]), b[end..])
    decreases end - p
  {
    if p < end {
      assert !StartsWithValue(values, b[p..]) && (final || !Begins(values, b[p..]));
      ScanPasses(values, b[p..], final);
      ScanRest(values, b, p + 1, end, final);
      PassNext(b, p, end, Scanned([], b[end..]));
      PlainsAlone(b[p + 1..end], b[end..]);
      PlainsAlone(b[p..end], b[end..]);
    } else {
      assert Plains(b[p..end]) == [];
      ScanEnd(values, b, end, final);
    }
  }

  lemma PlainsAlone(b: string, held: string)
    ensures Prepend(Plains(b), Scanned([], held)) == Scanned(Plains(b), held)
  {
    assert Plains(b) + [] == Plains(b);
  }

  lemma NoneInside(values: seq<string>, b: string, p: nat)
    requires p <= |b| && forall k :: p <= k <= |b| ==> !StartsWithValue(values, b[k..])
    ensures !ContainsValue(values, b[p..])
  {
    forall i | 0 <= i <= |b| - p ensures !StartsWithValue(values, b[p..][i..]) {
      assert b[p..][i..] == b[p + i..];
    }
  }

  lemma PrependTwice(a: seq<Item>, b: seq<Item>, s: Scanned)
    ensures Prepend(a, Prepend(b, s)) == Prepend(a + b, s)
  {
    assert a + (b + s.items) == (a + b) + s.items;
  }

  lemma ShownStep(items: seq<Item>, b: string, v: string)
    ensures Shown(items + Plains(b) + [Masked(v)]) == Shown(items) + b + CONCEALED
    ensures Shown(items + Plains(b)) == Shown(items) + b
  {
    TextPlains(View, b);
    TextAppend(View, items, Plains(b));
    TextAppend(View, items + Plains(b), [Masked(v)]);
    assert Text(View, [Masked(v)]) == CONCEALED by { assert [Masked(v)][..0] == []; }
  }

  lemma TailStep(values: seq<string>, tail: string, n: nat, final: bool, more: seq<Item>)
    requires NonEmpty(values) && StartsWithValue(values, tail) && n == LongestAt(values, tail)
    ensures 0 < n <= |tail|
    ensures Prepend(more, Scan(values, tail, final)) ==
              if !final && Begins(values, tail) then Scanned(more, tail)
              else Prepend(more + [Masked(tail[..n])], Scan(values, tail[n..], final))
  {
    LongestAtIs(values, tail);
    if !final && Begins(values, tail) {
      ScanHolds(values, tail);
      assert more + [] == more;
    } else {
      ScanMasks(values, tail, final);
      PrependTwice(more, [Masked(tail[..n])], Scan(values, tail[n..], final));
    }
  }

  /** A match: what is before it passes, and the value is replaced, unless a longer one may still be arriving. */
  lemma MatchStep(values: seq<string>, rest: string, i: nat, n: nat, final: bool, items: seq<Item>)
    requires NonEmpty(values) && i < |rest| && StartsWithValue(values, rest[i..]) && n == LongestAt(values, rest[i..])
    requires forall k :: 0 <= k < i ==> !StartsWithValue(values, rest[k..])
    ensures 0 < n && i + n <= |rest|
    ensures var more := items + Plains(rest[..i]);
            Prepend(items, Scan(values, rest, final)) ==
              if !final && Begins(values, rest[i..]) then Scanned(more, rest[i..])
              else Prepend(more + [Masked(rest[i..i + n])], Scan(values, rest[i + n..], final))
  {
    var tail, more := rest[i..], items + Plains(rest[..i]);
    Before(values, rest, i, final, items);
    TailStep(values, tail, n, final, more);
    assert i + n <= |rest|;
    assert tail[n..] == rest[i + n..] && tail[..n] == rest[i..i + n];
  }

  lemma Before(values: seq<string>, rest: string, i: nat, final: bool, items: seq<Item>)
    requires NonEmpty(values) && i < |rest| && StartsWithValue(values, rest[i..])
    requires forall k :: 0 <= k < i ==> !StartsWithValue(values, rest[k..])
    ensures Prepend(items, Scan(values, rest, final)) ==
              Prepend(items + Plains(rest[..i]), Scan(values, rest[i..], final))
  {
    ScanToMatch(values, rest, 0, i, final);
    assert rest[0..] == rest && rest[0..i] == rest[..i];
    PrependTwice(items, Plains(rest[..i]), Scan(values, rest[i..], final));
  }

  /** One pass over the pending text: `out` goes on at once, `held` becomes the new pending text. */
  method Conceal(values: seq<string>, b: string, final: bool) returns (out: string, held: string)
    requires LongestFirst(values)
    ensures var s := Scan(values, b, final); out == Shown(s.items) && held == s.held
  {
    out := "";
    var rest := b;
    ghost var items: seq<Item> := [];
    ghost var all := Scan(values, b, final);
    while true
      invariant out == Shown(items) && all == Prepend(items, Scan(values, rest, final))
      invariant rest == b || |rest| < |b|
      decreases |rest|
    {
      var at, n := FirstMatch(values, rest);
      if at.None? {
        ContainsNone(values, rest);
        break;
      }
      var i := at.value;
      MatchStep(values, rest, i, n, final, items);
      ShownStep(items, rest[..i], rest[i..i + n]);
      if !final {
        var longer := BeginsLonger(values, rest[i..], n);
        if longer {
          return out + rest[..i], rest[i..];
        }
      }
      items := items + Plains(rest[..i]) + [Masked(rest[i..i + n])];
      out := out + rest[..i] + CONCEALED;
      rest := rest[i + n..];
    }
    var hold := 0;
    if !final {
      hold := PrefixLen(values, rest);
    }
    var end := |rest| - hold;
    ScanRest(values, rest, 0, end, final);
    assert rest[0..] == rest && rest[0..end] == rest[..end];
    ShownStep(items, rest[..end], "");
    out, held := out + rest[..end], rest[end..];
  }

  lemma ContainsNone(values: seq<string>, b: string)
    requires !ContainsValue(values, b)
    ensures forall k :: 0 <= k <= |b| ==> !StartsWithValue(values, b[k..])
  {
  }

  // ----- the stream

  /** What the output has received, and what is held back. */
  datatype Stream = Stream(items: seq<Item>, pending: string)

  function Concat(chunks: seq<string>): string {
    if chunks == [] then "" else Concat(chunks[..|chunks| - 1]) + chunks[|chunks| - 1]
  }

  ghost function Streamed(values: seq<string>, chunks: seq<string>): Stream {
    if chunks == [] then Stream([], "")
    else
      var s := Streamed(values, chunks[..|chunks| - 1]);
      var c := Scan(values, s.pending + chunks[|chunks| - 1], false);
      Stream(s.items + c.items, c.held)
  }

  /** Everything the output receives once what is held back is flushed. */
  ghost function Flushed(values: seq<string>, chunks: seq<string>): seq<Item> {
    var s := Streamed(values, chunks);
    s.items + Scan(values, s.pending, true).items
  }

  /** Writes through to an output with every value replaced. */
  class Masker {
    const values: seq<string>
    var pending: string
    var written: string
    ghost var chunks: seq<string>

    ghost predicate Valid()
      reads this
    {
      && LongestFirst(values)
      && pending == Streamed(values, chunks).pending
      && written == Shown(Streamed(values, chunks).items)
    }

    constructor (values: seq<string>)
      requires LongestFirst(values)
      ensures Valid() && this.values == values && chunks == [] && written == ""
    {
      this.values, pending, written, chunks := values, "", "", [];
    }

    method Write(p: string)
      requires Valid()
      modifies this
      ensures Valid() && chunks == old(chunks) + [p]
    {
      ghost var s := Streamed(values, chunks);
      assert (chunks + [p])[..|chunks|] == chunks;
      pending := pending + p;
      var out, held := Conceal(values, pending, false);
      TextAppend(View, s.items, Scan(values, pending, false).items);
      pending := held;
      written := written + out;
      chunks := chunks + [p];
    }

    /** Ends the output: no more of it can complete a longer value. */
    method Flush()
      requires Valid()
      modifies this
      ensures pending == "" && chunks == old(chunks) && written == Shown(Flushed(values, chunks))
    {
      TextAppend(View, Streamed(values, chunks).items, Scan(values, pending, true).items);
      if pending == "" {
        assert Text(View, []) == "";
        return;
      }
      var out, held := Conceal(values, pending, true);
      pending := "";
      written := written + out;
    }
  }

  // ----- nothing is lost

  ghost predicate OnlyValues(values: seq<string>, items: seq<Item>) {
    forall x :: x in items && x.Masked? ==> x.value in values
  }

  lemma OnlyValuesAppend(values: seq<string>, a: seq<Item>, b: seq<Item>)
    requires OnlyValues(values, a) && OnlyValues(values, b)
    ensures OnlyValues(values, a + b)
  {
  }

  lemma TextOne(bytes: Item -> string, x: Item)
    ensures Text(bytes, [x]) == bytes(x)
  {
    var one := [x];
    assert one[..0] == [];
  }

  /** Scanning either stops, or takes one item off the front. */
  lemma ScanMoves(values: seq<string>, b: string, final: bool) returns (k: nat, x: Item)
    ensures k <= |b| && (k == 0 ==> Scan(values, b, final) == Scanned([], b) && (b == "" || !final))
    ensures k > 0 ==> Scan(values, b, final) == Prepend([x], Scan(values, b[k..], final))
    ensures k > 0 ==> Raw(x) == b[..k] && (x.Masked? ==> x.value in values)
  {
    LongestAtIs(values, b);
    var n := LongestAt(values, b);
    k, x := 0, Plain(' ');
    if b != "" && Scan(values, b, final) != Scanned([], b) {
      if 0 < n <= |b| {
        k, x := n, Masked(b[..n]);
      } else {
        k, x := 1, Plain(b[0]);
      }
    }
  }

  lemma ExpandOne(x: Item, rest: Scanned, b: string, k: nat)
    requires k <= |b| && Raw(x) == b[..k] && Expand(rest.items) + rest.held == b[k..]
    ensures Expand(([x] + rest.items)) + rest.held == b
  {
    TextAppend(Raw, [x], rest.items);
    TextOne(Raw, x);
    Assoc(Raw(x), Expand(rest.items), rest.held);
    assert b == b[..k] + b[k..];
  }

  lemma {:induction false} ScanKeepsBytes(values: seq<string>, b: string, final: bool)
    ensures var s := Scan(values, b, final); Expand(s.items) + s.held == b && OnlyValues(values, s.items)
    ensures final ==> Scan(values, b, final).held == ""
    decreases |b|
  {
    var k, x := ScanMoves(values, b, final);
    if k == 0 {
      assert Expand([]) + b == b;
    } else {
      ScanKeepsBytes(values, b[k..], final);
      ExpandOne(x, Scan(values, b[k..], final), b, k);
      OnlyValuesAppend(values, [x], Scan(values, b[k..], final).items);
    }
  }

  /** Going on from what is held back keeps the bytes. */
  lemma GoOnKeepsBytes(values: seq<string>, items: seq<Item>, pending: string, p: string, final: bool)
    requires OnlyValues(values, items)
    ensures var c := Scan(values, pending + p, final);
            Expand(items + c.items) + c.held == Expand(items) + pending + p && OnlyValues(values, items + c.items)
  {
    var c := Scan(values, pending + p, final);
    ScanKeepsBytes(values, pending + p, final);
    TextAppend(Raw, items, c.items);
    OnlyValuesAppend(values, items, c.items);
    Assoc(Expand(items), Expand(c.items), c.held);
    Assoc(Expand(items), pending, p);
  }

  /** Putting the replaced values back gives exactly the bytes that were written, whatever the chunks. */
  lemma {:induction false} NothingIsLost(values: seq<string>, chunks: seq<string>)
    ensures var s := Streamed(values, chunks);
            Expand(s.items) + s.pending == Concat(chunks) && OnlyValues(values, s.items)
    ensures Expand(Flushed(values, chunks)) == Concat(chunks) && OnlyValues(values, Flushed(values, chunks))
  {
    var s := Streamed(values, chunks);
    if chunks != [] {
      var front, p := chunks[..|chunks| - 1], chunks[|chunks| - 1];
      NothingIsLost(values, front);
      GoOnKeepsBytes(values, Streamed(values, front).items, Streamed(values, front).pending, p, false);
    } else {
      assert Expand([]) + "" == "";
    }
    GoOnKeepsBytes(values, s.items, s.pending, "", true);
    assert s.pending + "" == s.pending && Concat(chunks) + "" == Concat(chunks);
    ScanKeepsBytes(values, s.pending, true);
    assert Expand(Flushed(values, chunks)) + "" == Expand(Flushed(values, chunks));
  }

  lemma {:induction false} ScanHeldBegins(values: seq<string>, b: string)
    requires NonEmpty(values)
    ensures var h := Scan(values, b, false).held;
            h == "" || (Begins(values, h) && (StartsWithValue(values, h) || !ContainsValue(values, h)))
    decreases |b|
  {
    var n := LongestAt(values, b);
    LongestAtIs(values, b);
    if b != "" && Scan(values, b, false) != Scanned([], b) {
      ScanHeldBegins(values, b[if 0 < n <= |b| then n else 1..]);
    }
  }

  /** Only a trailing part that begins a value is ever held back. */
  lemma OnlyABeginningIsHeld(values: seq<string>, chunks: seq<string>)
    requires NonEmpty(values)
    ensures var h := Streamed(values, chunks).pending;
            h == "" || (Begins(values, h) && (StartsWithValue(values, h) || !ContainsValue(values, h)))
  {
    if chunks != [] {
      ScanHeldBegins(values, Streamed(values, chunks[..|chunks| - 1]).pending + chunks[|chunks| - 1]);
    }
  }

  // ----- chunks

  /** What may still arrive never changes what was already decided, if the beginning of a
      value that contains a value starts with one. */
  ghost predicate PrefixesStart(values: seq<string>) {
    forall v, k :: v in values && 0 <= k < |v| && ContainsValue(values, v[..k]) ==> StartsWithValue(values, v[..k])
  }

  lemma PrefixOfBoth(v: string, b: string, p: string)
    requires v <= b + p
    ensures if |v| <= |b| then v <= b else b <= v
  {
    if |v| > |b| {
      assert b == (b + p)[..|b|];
    }
  }

  /** A value that `b + p` starts with already starts `b`, or `b` is the beginning of it. */
  lemma StartsSoon(values: seq<string>, b: string, p: string)
    ensures forall v :: v in values && v <= b + p ==> v <= b || (|b| < |v| && b <= v)
    ensures StartsWithValue(values, b + p) ==> StartsWithValue(values, b) || Begins(values, b)
  {
    forall v | v in values && v <= b + p ensures v <= b || (|b| < |v| && b <= v) {
      PrefixOfBoth(v, b, p);
    }
  }

  lemma SameLongest(values: seq<string>, b: string, p: string)
    requires NonEmpty(values) && StartsWithValue(values, b) && !Begins(values, b)
    ensures StartsWithValue(values, b + p) && LongestAt(values, b + p) == LongestAt(values, b) <= |b|
  {
    var all, n, m := b + p, LongestAt(values, b), LongestAt(values, b + p);
    LongestAtIs(values, b);
    LongestAtIs(values, all);
    StartsSoon(values, b, p);
    var v, w := b[..n], all[..m];
    assert v in values && v <= all;
    assert StartsWithValue(values, all);
    assert w in values && w <= all;
  }

  lemma NoneStarts(values: seq<string>, b: string, p: string)
    requires NonEmpty(values) && PrefixesStart(values) && !StartsWithValue(values, b)
    requires !Begins(values, b) || ContainsValue(values, b)
    ensures !StartsWithValue(values, b + p) && LongestAt(values, b + p) == 0
  {
    StartsSoon(values, b, p);
    LongestAtIs(values, b + p);
    assert forall v :: |b| < |v| && b <= v ==> v[..|b|] == b;
  }

  lemma PassMasks(values: seq<string>, b: string)
    requires NonEmpty(values) && StartsWithValue(values, b)
    ensures 0 < LongestAt(values, b) <= |b|
    ensures Pass(values, b) == [Masked(b[..LongestAt(values, b)])] + Pass(values, b[LongestAt(values, b)..])
  {
    LongestAtIs(values, b);
  }

  lemma PassPasses(values: seq<string>, b: string)
    requires NonEmpty(values) && b != "" && !StartsWithValue(values, b)
    ensures Pass(values, b) == [Plain(b[0])] + Pass(values, b[1..])
  {
    LongestAtIs(values, b);
  }

  /** What was decided about `b` holds whatever follows. */
  ghost predicate Decided(values: seq<string>, b: string, p: string) {
    var s := Scan(values, b, false);
    Pass(values, b + p) == s.items + Pass(values, s.held + p)
  }

  lemma DecidedAfter(values: seq<string>, b: string, p: string, x: Item, rest: string)
    requires Decided(values, rest, p)
    requires Scan(values, b, false) == Prepend([x], Scan(values, rest, false))
    requires Pass(values, b + p) == [x] + Pass(values, rest + p)
    ensures Decided(values, b, p)
  {
    var s := Scan(values, rest, false);
    ItemsAssoc([x], s.items, Pass(values, s.held + p));
  }

  lemma DecidedHolding(values: seq<string>, b: string, p: string)
    requires Scan(values, b, false) == Scanned([], b)
    ensures Decided(values, b, p)
  {
    assert [] + Pass(values, b + p) == Pass(values, b + p);
  }

  lemma MaskedEither(values: seq<string>, b: string, p: string) returns (n: nat)
    requires NonEmpty(values) && StartsWithValue(values, b) && !Begins(values, b)
    ensures 0 < n <= |b|
    ensures Scan(values, b, false) == Prepend([Masked(b[..n])], Scan(values, b[n..], false))
    ensures Pass(values, b + p) == [Masked(b[..n])] + Pass(values, b[n..] + p)
  {
    n := LongestAt(values, b);
    ScanMasks(values, b, false);
    PassMasksToo(values, b, p, n);
  }

  lemma PassMasksToo(values: seq<string>, b: string, p: string, n: nat)
    requires NonEmpty(values) && StartsWithValue(values, b) && !Begins(values, b) && n == LongestAt(values, b) <= |b|
    ensures Pass(values, b + p) == [Masked(b[..n])] + Pass(values, b[n..] + p)
  {
    SameLongest(values, b, p);
    SliceSum(b, p, n);
    PassMasks(values, b + p);
  }

  lemma SliceSum(b: string, p: string, n: nat)
    requires n <= |b|
    ensures (b + p)[n..] == b[n..] + p && (b + p)[..n] == b[..n]
  {
  }

  lemma PassedEither(values: seq<string>, b: string, p: string)
    requires NonEmpty(values) && PrefixesStart(values) && b != "" && !StartsWithValue(values, b)
    requires !Begins(values, b) || ContainsValue(values, b)
    ensures Scan(values, b, false) == Prepend([Plain(b[0])], Scan(values, b[1..], false))
    ensures Pass(values, b + p) == [Plain(b[0])] + Pass(values, b[1..] + p)
  {
    NoneStarts(values, b, p);
    ScanPasses(values, b, false);
    PassPasses(values, b + p);
    assert (b + p)[1..] == b[1..] + p && (b + p)[0] == b[0];
  }

  lemma {:induction false} ScanThenPass(values: seq<string>, b: string, p: string)
    requires NonEmpty(values) && PrefixesStart(values)
    ensures Decided(values, b, p)
    decreases |b|
  {
    if b == "" {
      DecidedHolding(values, b, p);
    } else if StartsWithValue(values, b) && !Begins(values, b) {
      var n := MaskedEither(values, b, p);
      ScanThenPass(values, b[n..], p);
      DecidedAfter(values, b, p, Masked(b[..n]), b[n..]);
    } else if !StartsWithValue(values, b) && (!Begins(values, b) || ContainsValue(values, b)) {
      PassedEither(values, b, p);
      ScanThenPass(values, b[1..], p);
      DecidedAfter(values, b, p, Plain(b[0]), b[1..]);
    } else {
      ScanHolds(values, b);
      DecidedHolding(values, b, p);
    }
  }

  lemma ItemsAssoc(a: seq<Item>, b: seq<Item>, c: seq<Item>)
    ensures (a + b) + c == a + (b + c)
  {
  }

  /** What was sent out holds whatever follows. */
  ghost predicate SentOut(values: seq<string>, input: string, s: Stream, p: string) {
    Pass(values, input + p) == s.items + Pass(values, s.pending + p)
  }

  lemma SentOutFurther(values: seq<string>, input: string, s: Stream, c: string, p: string)
    requires SentOut(values, input, s, c + p) && Decided(values, s.pending + c, p)
    ensures var d := Scan(values, s.pending + c, false);
            SentOut(values, input + c, Stream(s.items + d.items, d.held), p)
  {
    var d := Scan(values, s.pending + c, false);
    Assoc(input, c, p);
    Assoc(s.pending, c, p);
    ItemsAssoc(s.items, d.items, Pass(values, d.held + p));
  }

  lemma {:induction false} StreamThenPass(values: seq<string>, chunks: seq<string>, p: string)
    requires NonEmpty(values) && PrefixesStart(values)
    ensures SentOut(values, Concat(chunks), Streamed(values, chunks), p)
  {
    if chunks != [] {
      var front, c := chunks[..|chunks| - 1], chunks[|chunks| - 1];
      var s := Streamed(values, front);
      StreamThenPass(values, front, c + p);
      ScanThenPass(values, s.pending + c, p);
      SentOutFurther(values, Concat(front), s, c, p);
    } else {
      assert [] + Pass(values, "" + p) == Pass(values, "" + p);
    }
  }

  lemma FlushedIsPass(values: seq<string>, chunks: seq<string>)
    requires NonEmpty(values) && PrefixesStart(values)
    ensures Flushed(values, chunks) == Pass(values, Concat(chunks))
  {
    StreamThenPass(values, chunks, "");
    var s := Streamed(values, chunks);
    assert Concat(chunks) + "" == Concat(chunks) && s.pending + "" == s.pending;
    FinalScanIsPass(values, s.pending);
  }

  ghost predicate ChunksDoNotMatter(values: seq<string>) {
    forall chunks: seq<string> :: Flushed(values, chunks) == Pass(values, Concat(chunks))
  }

  /** The output is one leftmost-longest pass over the input for every chunking of it exactly when the beginning of a value
      never contains a value without starting with one. */
  lemma ChunkIndependence(values: seq<string>)
    requires NonEmpty(values)
    ensures ChunksDoNotMatter(values) <==> PrefixesStart(values)
  {
    if PrefixesStart(values) {
      forall chunks: seq<string> ensures Flushed(values, chunks) == Pass(values, Concat(chunks)) {
        FlushedIsPass(values, chunks);
      }
    } else {
      var v, k :| v in values && 0 <= k < |v| && ContainsValue(values, v[..k]) && !StartsWithValue(values, v[..k]);
      assert v[..k] + v[k..] == v;
      SplitShows(values, v[..k], v[k..], [v[..k], v[k..]]);
    }
  }

  /** A value that arrives in two parts, the first containing another value further in, is not replaced. */
  lemma SplitShows(values: seq<string>, first: string, rest: string, chunks: seq<string>)
    requires NonEmpty(values) && first + rest in values && chunks == [first, rest]
    requires ContainsValue(values, first) && !StartsWithValue(values, first)
    ensures Flushed(values, chunks) != Pass(values, Concat(chunks))
  {
    var v := first + rest;
    NotEmpty(values, first);
    FirstPasses(values, [first], first);
    TwoChunks(values, first, rest);
    assert v <= v;
    PassMasks(values, v);
  }

  lemma TwoChunks(values: seq<string>, a: string, b: string)
    ensures Concat([a, b]) == a + b
    ensures Streamed(values, [a]).items <= Flushed(values, [a, b])
  {
    var chunks, one := [a, b], [a];
    assert chunks[..1] == one && one[..0] == [];
    assert Concat(one) == Concat(one[..0]) + a == a;
  }

  lemma NotEmpty(values: seq<string>, b: string)
    requires ContainsValue(values, b) && !StartsWithValue(values, b)
    ensures b != ""
  {
    var i :| 0 <= i <= |b| && StartsWithValue(values, b[i..]);
    assert b[0..] == b;
  }

  lemma FirstPasses(values: seq<string>, one: seq<string>, first: string)
    requires NonEmpty(values) && one == [first] && first != "" && !StartsWithValue(values, first) &&
             ContainsValue(values, first)
    ensures Streamed(values, one).items != [] && Streamed(values, one).items[0] == Plain(first[0])
  {
    ScanPasses(values, first, false);
    assert one[..0] == [] && "" + first == first;
    assert Streamed(values, one).items == [] + Scan(values, first, false).items;
  }

  /** The usual case: no value occurs further in than at the start of another. */
  ghost predicate NoneInsideAnother(values: seq<string>) {
    forall v, i :: v in values && 0 < i <= |v| ==> !StartsWithValue(values, v[i..])
  }

  lemma SeparateValues(values: seq<string>)
    requires NoneInsideAnother(values)
    ensures PrefixesStart(values)
  {
    forall v, k | v in values && 0 <= k < |v| && ContainsValue(values, v[..k]) ensures StartsWithValue(values, v[..k]) {
      var i :| 0 <= i <= k && StartsWithValue(values, v[..k][i..]);
      var w :| w in values && w <= v[..k][i..];
      assert w <= v[i..];
      assert StartsWithValue(values, v[i..]);
      assert v[..k][0..] == v[..k];
    }
  }

  // ----- no value shows

  ghost predicate AllPlain(items: seq<Item>) {
    forall x :: x in items ==> x.Plain?
  }

  /** No run of bytes that passed contains a value. */
  ghost predicate NoValueShows(values: seq<string>, items: seq<Item>) {
    forall i, j :: 0 <= i <= j <= |items| && AllPlain(items[i..j]) ==> Expand(items[i..j]) !in values
  }

  /** Bytes that passed and are followed by `b` start no value, and, unless the output ends with `b`, can begin none. */
  ghost predicate Clear(values: seq<string>, text: string, b: string, final: bool) {
    !StartsWithValue(values, text) && (final || ContainsValue(values, b) || !Begins(values, text))
  }

  /** No value can show from the bytes that passed last: `b` starts with one, which
      will be replaced, or nothing is under way. */
  ghost predicate NoneUnderWay(values: seq<string>, items: seq<Item>, b: string, final: bool) {
    || StartsWithValue(values, b)
    || (forall k :: 0 <= k < |items| && AllPlain(items[k..]) ==> Clear(values, Expand(items[k..]) + b, b, final))
  }

  lemma ShiftOne(items: seq<Item>, b: string, k: nat)
    requires b != "" && k <= |items|
    ensures var more := items + [Plain(b[0])];
            more[k..] == items[k..] + [Plain(b[0])] && Expand(more[k..]) + b[1..] == Expand(items[k..]) + b
  {
    var x := Plain(b[0]);
    assert (items + [x])[k..] == items[k..] + [x];
    TextAppend(Raw, items[k..], [x]);
    TextOne(Raw, x);
    Assoc(Expand(items[k..]), [b[0]], b[1..]);
    assert [b[0]] + b[1..] == b;
  }

  lemma ClearShifts(values: seq<string>, items: seq<Item>, b: string, final: bool, k: nat)
    requires b != "" && !StartsWithValue(values, b) && (final || ContainsValue(values, b) || !Begins(values, b))
    requires NoneUnderWay(values, items, b, final) && k <= |items| && AllPlain(items[k..])
    ensures Clear(values, Expand((items + [Plain(b[0])])[k..]) + b[1..], b[1..], final)
  {
    ShiftOne(items, b, k);
    ContainsTail(values, b);
    assert k == |items| ==> items[k..] == [] && Expand(items[k..]) + b == b;
  }

  /** A byte passes: nothing comes under way. */
  lemma PassKeepsClear(values: seq<string>, items: seq<Item>, b: string, final: bool)
    requires b != "" && !StartsWithValue(values, b) && (final || ContainsValue(values, b) || !Begins(values, b))
    requires NoneUnderWay(values, items, b, final)
    ensures var more := items + [Plain(b[0])];
            forall k :: 0 <= k < |more| && AllPlain(more[k..]) ==>
              Clear(values, Expand(more[k..]) + b[1..], b[1..], final)
  {
    var more := items + [Plain(b[0])];
    forall k | 0 <= k < |more| && AllPlain(more[k..]) ensures Clear(values, Expand(more[k..]) + b[1..], b[1..], final) {
      ShiftOne(items, b, k);
      assert forall x :: x in items[k..] ==> x in more[k..];
      ClearShifts(values, items, b, final, k);
    }
  }

  lemma PassShowsNothing(values: seq<string>, items: seq<Item>, c: char, b: string)
    requires NonEmpty(values) && NoValueShows(values, items)
    requires var more := items + [Plain(c)];
             forall k :: 0 <= k < |more| && AllPlain(more[k..]) ==> !StartsWithValue(values, Expand(more[k..]) + b)
    ensures NoValueShows(values, items + [Plain(c)])
  {
    var more := items + [Plain(c)];
    forall i, j | 0 <= i <= j <= |more| && AllPlain(more[i..j]) ensures Expand(more[i..j]) !in values {
      if j < |more| {
        assert more[i..j] == items[i..j];
      } else if i < |more| {
        assert more[i..j] == more[i..];
        assert Expand(more[i..]) <= Expand(more[i..]) + b;
      }
    }
  }

  /** A value is replaced: the run of bytes that passed ends. */
  lemma MaskEndsRun(values: seq<string>, items: seq<Item>, v: string, b: string, final: bool)
    requires NonEmpty(values) && NoValueShows(values, items)
    ensures NoValueShows(values, items + [Masked(v)]) && NoneUnderWay(values, items + [Masked(v)], b, final)
  {
    var more := items + [Masked(v)];
    forall k | 0 <= k < |more| ensures !AllPlain(more[k..]) && !AllPlain(more[k..|more|]) {
      assert more[k..][|more| - 1 - k] == Masked(v);
      assert Masked(v) in more[k..] && more[k..] == more[k..|more|];
    }
    forall i, j | 0 <= i <= j <= |more| && AllPlain(more[i..j]) ensures Expand(more[i..j]) !in values {
      if j < |more| {
        assert more[i..j] == items[i..j];
      }
    }
  }

  ghost predicate Clean(values: seq<string>, items: seq<Item>, b: string, final: bool) {
    NoValueShows(values, items) && NoneUnderWay(values, items, b, final)
  }

  lemma {:induction false} ScanKeepsClean(values: seq<string>, items: seq<Item>, b: string, final: bool)
    requires NonEmpty(values) && Clean(values, items, b, final)
    ensures var s := Scan(values, b, final); Clean(values, items + s.items, s.held, final)
    decreases |b|
  {
    if b == "" {
      assert items + [] == items;
    } else if StartsWithValue(values, b) && (final || !Begins(values, b)) {
      var n := LongestAt(values, b);
      ScanMasks(values, b, final);
      MaskEndsRun(values, items, b[..n], b[n..], final);
      ScanKeepsClean(values, items + [Masked(b[..n])], b[n..], final);
      ItemsAssoc(items, [Masked(b[..n])], Scan(values, b[n..], final).items);
    } else if !StartsWithValue(values, b) && (final || !Begins(values, b) || ContainsValue(values, b)) {
      ScanPasses(values, b, final);
      PassKeepsClear(values, items, b, final);
      PassShowsNothing(values, items, b[0], b[1..]);
      ScanKeepsClean(values, items + [Plain(b[0])], b[1..], final);
      ItemsAssoc(items, [Plain(b[0])], Scan(values, b[1..], final).items);
    } else {
      ScanHolds(values, b);
      assert items + [] == items;
    }
  }

  /** More output arrives behind what is held back. */
  lemma MoreArrives(values: seq<string>, items: seq<Item>, pending: string, p: string)
    requires Clean(values, items, pending, false)
    requires StartsWithValue(values, pending) || !ContainsValue(values, pending)
    ensures Clean(values, items, pending + p, false)
  {
    if StartsWithValue(values, pending) {
      var v :| v in values && v <= pending;
      assert v <= pending + p;
    } else {
      forall k | 0 <= k < |items| && AllPlain(items[k..])
        ensures Clear(values, Expand(items[k..]) + (pending + p), pending + p, false) {
        var text := Expand(items[k..]) + pending;
        Assoc(Expand(items[k..]), pending, p);
        StartsSoon(values, text, p);
        BeginsSoon(values, text, p);
      }
    }
  }

  lemma BeginsSoon(values: seq<string>, b: string, p: string)
    ensures Begins(values, b + p) ==> Begins(values, b)
  {
    if Begins(values, b + p) {
      var v :| v in values && |b + p| < |v| && b + p <= v;
      assert b == v[..|b|];
    }
  }

  lemma {:induction false} StreamIsClean(values: seq<string>, chunks: seq<string>)
    requires NonEmpty(values)
    ensures var s := Streamed(values, chunks); Clean(values, s.items, s.pending, false)
  {
    if chunks != [] {
      var front, p := chunks[..|chunks| - 1], chunks[|chunks| - 1];
      var s := Streamed(values, front);
      StreamIsClean(values, front);
      OnlyABeginningIsHeld(values, front);
      if s.pending == "" && ContainsValue(values, s.pending) {
        HoldsNothing(values, s.pending);
      }
      MoreArrives(values, s.items, s.pending, p);
      ScanKeepsClean(values, s.items, s.pending + p, false);
    }
  }

  lemma HoldsNothing(values: seq<string>, b: string)
    requires NonEmpty(values) && b == ""
    ensures !ContainsValue(values, b)
  {
  }

  /** However the output was cut into chunks, no run of bytes between replaced
      values contains a value once it is flushed. */
  lemma NoSecretShows(values: seq<string>, chunks: seq<string>)
    requires NonEmpty(values)
    ensures NoValueShows(values, Flushed(values, chunks))
  {
    var s := Streamed(values, chunks);
    StreamIsClean(values, chunks);
    ScanKeepsClean(values, s.items, s.pending, true);
  }

  // ----- from the secrets to the output

  /** A secret, or a line of one that has line breaks, of the length from which on texts are masked. */
  ghost predicate Sensitive(secrets: set<string>, part: string) {
    |part| >= 6 && exists s :: s in secrets && (part == s || IsLineOf(s, part))
  }

  /** Text between two line breaks, or a line break and an end, of a text that has line breaks. */
  ghost predicate IsLineOf(s: string, part: string) {
    && (exists c :: c in s && (c == '\r' || c == '\n'))
    && exists i, j :: 0 <= i < j <= |s| && part == s[i..j] && '\r' !in part && '\n' !in part
                      && (i == 0 || IsBreak(s[i - 1])) && (j == |s| || IsBreak(s[j]))
  }

  lemma LineIsRun(s: string, part: string)
    requires exists c :: c in s && (c == '\r' || c == '\n')
    ensures IsLineOf(s, part) <==> part in Lines(s, "")
  {
    LinesAreRuns(s, part);
    if IsLineOf(s, part) {
      var i, j :| 0 <= i < j <= |s| && part == s[i..j] && '\r' !in part && '\n' !in part
                  && (i == 0 || IsBreak(s[i - 1])) && (j == |s| || IsBreak(s[j]));
      forall k | i <= k < j ensures !IsBreak(s[k]) {
        assert part[k - i] == s[k] && part[k - i] in part;
      }
      assert RunAt(s, i, j);
    }
  }

  lemma SensitiveIsMasked(secrets: set<string>, v: string)
    ensures Sensitive(secrets, v) <==> ToMask(secrets, v)
  {
    forall s | s in secrets && exists c :: c in s && IsBreak(c) ensures v in Lines(s, "") <==> IsLineOf(s, v) {
      LineIsRun(s, v);
    }
  }

  /** Where the values are those of the secrets: no run of bytes that passes is a secret or such a line of one, nothing but
      those is replaced, and what is replaced reaches the output as the notice, everything else as it is. */
  lemma SecretsAreMasked(secrets: set<string>, values: seq<string>, chunks: seq<string>, i: nat, j: nat)
    requires NonEmpty(values) && forall v :: v in values <==> ToMask(secrets, v)
    requires i <= j <= |Flushed(values, chunks)|
    ensures var items := Flushed(values, chunks)[i..j];
            (forall x :: x in items ==> x.Plain?) ==> !Sensitive(secrets, Expand(items))
    ensures forall x :: x in Flushed(values, chunks) && x.Masked? ==> Sensitive(secrets, x.value)
    ensures forall items, x :: Shown(items + [x]) == Shown(items) + if x.Plain? then [x.c] else "<concealed by enbu>"
    ensures forall items, x :: Expand(items + [x]) == Expand(items) + if x.Plain? then [x.c] else x.value
  {
    NoSecretShows(values, chunks);
    NothingIsLost(values, chunks);
    SensitiveIsMasked(secrets, Expand(Flushed(values, chunks)[i..j]));
    forall x | x in Flushed(values, chunks) && x.Masked? ensures Sensitive(secrets, x.value) {
      SensitiveIsMasked(secrets, x.value);
    }
    forall items: seq<Item>, x: Item
      ensures Text(View, items + [x]) == Text(View, items) + View(x)
      ensures Text(Raw, items + [x]) == Text(Raw, items) + Raw(x)
    {
      assert (items + [x])[..|items|] == items;
    }
  }
}
