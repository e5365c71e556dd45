/** A pull into a dotenv file that also holds variables of its own (dotenvWithLocal in app/secrets.go): what is above
    the marker line is replaced, and what is below it is kept. */
module Pulling {
  import opened Orders
  import opened Dotenv

  /** The line that separates what a pull writes from what it keeps. */
  const KEPT_MARKER := "# Local variables " + "below are kept " + "by enbu pull; " + "enbu does not " + "store them " +
                         "(pull --replace " + "drops them):"

  const LINE_ENDS: set<char> := {'\r', '\n'}

  datatype Split = Split(pulled: string, local: string, marked: bool)

  function FirstLine(text: string): string {
    var i := IndexOf(text, '\n');
    if i < |text| then text[..i + 1] else text
  }

  predicate IsMarker(line: string) {
    TrimRight(line, LINE_ENDS) == KEPT_MARKER
  }

  /** What is above the first marker line, `above` included, and what is below it. */
  function SplitFrom(above: string, text: string): Split
    decreases |text|
  {
    var line := FirstLine(text);
    if IsMarker(line) then Split(above, text[|line|..], true)
    else if line == text then Split("", above + text, false)
    else SplitFrom(above + line, text[|line|..])
  }

  /** Walks the lines up to the first marker; if none is met, everything seen so far is handed back as local. */
  method SplitAtMarker(file: string) returns (s: Split)
    ensures s == SplitFrom("", file)
  {
    var above, text := "", file;
    while true
      invariant SplitFrom("", file) == SplitFrom(above, text)
      invariant above + text == file
      decreases |text|
    {
      var line := FirstLine(text);
      if IsMarker(line) {
        return Split(above, text[|line|..], true);
      }
      if line == text {
        return Split("", file, false);
      }
      LineMoves(above, text);
      above, text := above + line, text[|line|..];
    }
  }

  lemma LineMoves(above: string, text: string)
    ensures (above + FirstLine(text)) + text[|FirstLine(text)|..] == above + text
  {
  }

  /** Secrets, the marker, and local variables, as a pull writes them. */
  ghost function Rendered(secrets: SecretMap, local: SecretMap): string {
    Printed(secrets) + "\n" + KEPT_MARKER + "\n" + Printed(local)
  }

  ghost predicate Unusable(secrets: SecretMap) {
    exists k :: k in secrets && HasBreak(k)
  }

  function Without(m: SecretMap, keys: set<string>): SecretMap {
    map k | k in m && k !in keys :: m[k]
  }

  datatype Pulled = Pulled(data: string, kept: seq<string>, removed: seq<string>)

  /** Names in order. */
  ghost function Names(S: set<string>): seq<string> {
    KeyList(map k | k in S :: "")
  }

  method SortNames(S: set<string>) returns (s: seq<string>)
    ensures s == Names(S)
  {
    LessIsStrictTotal();
    s := SortedListing(Less, S);
    assert forall k :: k in s <==> k in Elements(s);
    SortedUnique(Less, s, Names(S));
  }

  /** Variables whose keys enbu held once and does not hold now. */
  function Held(vars: SecretMap, secrets: SecretMap, ever: Option<set<string>>): set<string> {
    if ever.None? then {} else set k | k in vars && k !in secrets && k in ever.value
  }

  /** In a file without a marker, such variables are enbu's own. */
  function Gone(s: Split, vars: SecretMap, secrets: SecretMap, ever: Option<set<string>>): set<string> {
    if s.marked then {} else Held(vars, secrets, ever)
  }

  /** Below the marker go the variables of the file that are neither secrets nor enbu's own. */
  ghost function PullInto(file: string, secrets: SecretMap, ever: Option<set<string>>): Option<Pulled> {
    var s := SplitFrom("", file);
    var previous, vars := Imported(s.pulled), Imported(s.local);
    if previous.None? || vars.None? then None
    else Some(Beside(previous.value, vars.value, secrets, Gone(s, vars.value, secrets, ever)))
  }

  ghost function Beside(previous: SecretMap, vars: SecretMap, secrets: SecretMap, gone: set<string>): Pulled {
    var keep := Without(vars, secrets.Keys + gone);
    Pulled(Rendered(secrets, keep), Names(keep.Keys), Names((previous.Keys + gone) - secrets.Keys))
  }

  /** The file a pull writes, the variables it keeps and those it removes. */
  ghost function PullOf(file: Option<string>, secrets: SecretMap, replace: bool,
                        ever: Option<set<string>>): Option<Pulled> {
    if Unusable(secrets) then None
    else if replace || file.None? then Some(Pulled(Rendered(secrets, map[]), [], []))
    else PullInto(file.value, secrets, ever)
  }

  /** What moves out of the local variables when an unmarked file is told apart by the keys enbu ever held. */
  method TellApart(vars: SecretMap, secrets: SecretMap, ever: Option<set<string>>) returns (moved: set<string>)
    ensures moved == Held(vars, secrets, ever)
  {
    moved := {};
    if (exists key :: key in vars && key !in secrets) && ever.Some? {
      var todo := vars.Keys;
      while todo != {}
        invariant todo <= vars.Keys
        invariant moved == set k | k in vars.Keys - todo && k !in secrets && k in ever.value
        decreases todo
      {
        var key :| key in todo;
        if key !in secrets && key in ever.value {
          moved := moved + {key};
        }
        todo := todo - {key};
      }
    }
  }

  /** Writes the variables to keep below the marker. */
  method AddLocal(data: string, previous: SecretMap, vars: SecretMap, gone: set<string>, secrets: SecretMap)
    returns (r: Pulled)
    requires data == Printed(secrets) + "\n" + KEPT_MARKER + "\n"
    requires forall k :: k in vars ==> ValidKey(k)
    ensures r == Beside(previous, vars, secrets, gone)
  {
    var removed := SortNames((previous.Keys + gone) - secrets.Keys);
    var keep := Without(vars, secrets.Keys + gone);
    var kept := SortNames(keep.Keys);
    if |kept| == 0 {
      NamesOf(keep);
      assert data + "" == data;
      return Pulled(data, [], removed);
    }
    NamesPrint(keep);
    var extra := ToDotEnv(keep);
    r := Pulled(data + extra.value, kept, removed);
  }

  lemma NamesOf(m: SecretMap)
    ensures Names(m.Keys) == [] ==> m == map[] && Printed(m) == ""
  {
    PrintedNothing();
    assert forall k :: k in Names(m.Keys) <==> k in m;
  }

  method AddToFile(data: string, file: string, secrets: SecretMap, ever: Option<set<string>>)
    returns (r: Option<Pulled>)
    requires data == Printed(secrets) + "\n" + KEPT_MARKER + "\n"
    ensures r == PullInto(file, secrets, ever)
  {
    var s := SplitAtMarker(file);
    var previous := ImportDotenv(s.pulled);
    if previous.None? {
      return None;
    }
    var vars := ImportDotenv(s.local);
    if vars.None? {
      return None;
    }
    var gone := {};
    if !s.marked {
      gone := TellApart(vars.value, secrets, ever);
    }
    ImportedNames(s.local);
    var pulled := AddLocal(data, previous.value, vars.value, gone, secrets);
    r := Some(pulled);
  }

  lemma PullReports(file: Option<string>, secrets: SecretMap, replace: bool, ever: Option<set<string>>)
    ensures var r := PullOf(file, secrets, replace, ever);
            r.Some? && !replace && file.Some? ==>
              var s := SplitFrom("", file.value);
              && Imported(s.pulled).Some? && Imported(s.local).Some?
              && var before, vars := Imported(s.pulled).value, Imported(s.local).value;
              && (forall k :: k in r.value.kept <==>
                    k in vars && k !in secrets && (s.marked || ever.None? || k !in ever.value))
              && (forall k :: k in r.value.removed <==>
                    k !in secrets && (k in before || (!s.marked && ever.Some? && k in vars && k in ever.value)))
  {
    var r := PullOf(file, secrets, replace, ever);
    if r.Some? && !replace && file.Some? {
      var s := SplitFrom("", file.value);
      PullParts(file.value, s, secrets, ever, PullInto(file.value, secrets, ever));
      var vars := Imported(s.local).value;
      BesideReports(Imported(s.pulled).value, vars, secrets, Gone(s, vars, secrets, ever));
    }
  }

  lemma BesideReports(previous: SecretMap, vars: SecretMap, secrets: SecretMap, gone: set<string>)
    ensures forall k :: k in Beside(previous, vars, secrets, gone).kept <==> k in vars && k !in secrets && k !in gone
    ensures forall k :: k in Beside(previous, vars, secrets, gone).removed <==>
              (k in previous || k in gone) && k !in secrets
  {
    var keep, drop := Without(vars, secrets.Keys + gone).Keys, (previous.Keys + gone) - secrets.Keys;
    assert forall k :: k in Names(keep) <==> k in Elements(Names(keep));
    assert forall k :: k in Names(drop) <==> k in Elements(Names(drop));
  }

  /** What a pull writes over the file it finds. */
  method DotenvWithLocal(file: Option<string>, secrets: SecretMap, replace: bool, ever: Option<set<string>>)
    returns (r: Option<Pulled>)
    ensures r == PullOf(file, secrets, replace, ever)
    ensures r.None? <==>
              || (exists k :: k in secrets && HasBreak(k))
              || (!replace && file.Some?
                  && (Imported(SplitFrom("", file.value).pulled).None? ||
                      Imported(SplitFrom("", file.value).local).None?))
    ensures r.Some? && (replace || file.None?) ==> r.value.kept == [] && r.value.removed == []
    ensures r.Some? && !replace && file.Some? ==>
              var s := SplitFrom("", file.value);
              var before, vars := Imported(s.pulled).value, Imported(s.local).value;
              && (forall k :: k in r.value.kept <==>
                    k in vars && k !in secrets && (s.marked || ever.None? || k !in ever.value))
              && (forall k :: k in r.value.removed <==>
                    k !in secrets && (k in before || (!s.marked && ever.Some? && k in vars && k in ever.value)))
  {
    PullReports(file, secrets, replace, ever);
    var printed := ToDotEnv(secrets);
    if printed.None? {
      return None;
    }
    var data := printed.value + "\n" + KEPT_MARKER + "\n";
    if replace || file.None? {
      PrintedNothing();
      assert data + "" == data;
      return Some(Pulled(data, [], []));
    }
    r := AddToFile(data, file.value, secrets, ever);
  }

  lemma PrintedNothing()
    ensures Printed(map[]) == ""
  {
    var none: SecretMap := map[];
    var keys := KeyList(none);
    assert forall i :: 0 <= i < |keys| ==> keys[i] in keys;
    assert forall k :: k !in keys;
  }

  lemma ImportedNames(data: string)
    ensures Imported(data).Some? ==>
              |Imported(data).value| <= MAX_ENTRIES && forall k :: k in Imported(data).value ==> ValidKey(k)
  {
    ParseNames(WithoutMark(data), map[]);
  }

  lemma NamesPrint(m: SecretMap)
    requires forall k :: k in m ==> ValidKey(k)
    ensures forall k :: k in m ==> !HasBreak(k)
  {
    forall k | k in m ensures !HasBreak(k) {
      NameHasNoSpace(k);
    }
  }

  // ----- runs of pulls

  ghost predicate InLimits(secrets: SecretMap) {
    |secrets| <= MAX_ENTRIES && forall k :: k in secrets ==> ValidKey(k)
  }

  lemma {:induction false} TrimRightPrefix(s: string, cut: set<char>)
    ensures TrimRight(s, cut) <= s
  {
    if s != "" && s[|s| - 1] in cut {
      TrimRightPrefix(s[..|s| - 1], cut);
    }
  }

  lemma OnlyCommentsMark(line: string)
    requires IsMarker(line)
    ensures line != "" && line[0] == '#'
  {
    TrimRightPrefix(line, LINE_ENDS);
    assert KEPT_MARKER[0] == '#';
  }

  lemma MarkerPlain()
    ensures '\n' !in KEPT_MARKER && KEPT_MARKER[|KEPT_MARKER| - 1] !in LINE_ENDS
  {
    assert '\n' !in "# Local variables " && '\n' !in "below are kept " && '\n' !in "by enbu pull; " &&
           '\n' !in "enbu does not ";
    assert '\n' !in "store them " && '\n' !in "(pull --replace " && '\n' !in "drops them):";
    assert "drops them):"[11] == ':';
  }

  lemma MarkerLine()
    ensures FirstLine(KEPT_MARKER + "\n") == KEPT_MARKER + "\n" && IsMarker(KEPT_MARKER + "\n")
  {
    var line := KEPT_MARKER + "\n";
    MarkerPlain();
    IndexOfIn(KEPT_MARKER, '\n', "");
    assert line == KEPT_MARKER + ['\n'] + "";
    assert line[..|line| - 1] == KEPT_MARKER;
  }

  lemma FirstLineOf(a: string, more: string)
    requires '\n' !in a
    ensures FirstLine(a + "\n" + more) == a + "\n" && (a + "\n" + more)[|a| + 1..] == more
  {
    IndexOfIn(a, '\n', more);
    assert a + "\n" + more == a + ['\n'] + more;
  }

  /** A line of a printed map is never the marker. */
  lemma SplitSkipsLine(above: string, key: string, value: string, more: string)
    requires ValidKey(key)
    ensures SplitFrom(above, Line(EscapeChar, key, value) + more) ==
              SplitFrom(above + Line(EscapeChar, key, value), more) || more == ""
  {
    BothEscape();
    NameHasNoSpace(key);
    EscapeIsOneLine(EscapeChar, value);
    var body := key + "=\"" + Escape(EscapeChar, value) + "\"";
    assert Line(EscapeChar, key, value) == body + "\n";
    FirstLineOf(body, more);
    assert (body + "\n")[0] == key[0] && key[0] in key;
    if IsMarker(body + "\n") {
      OnlyCommentsMark(body + "\n");
    }
  }

  lemma {:induction false} SplitSkipsLines(above: string, keys: seq<string>, m: SecretMap, more: string)
    requires (forall k :: k in keys ==> k in m && ValidKey(k)) && more != ""
    ensures SplitFrom(above, Lines(EscapeChar, keys, m) + more) == SplitFrom(above + Lines(EscapeChar, keys, m), more)
    decreases |keys|
  {
    if keys == [] {
      assert Lines(EscapeChar, keys, m) + more == more && above + Lines(EscapeChar, keys, m) == above;
    } else {
      var line, rest := Line(EscapeChar, keys[0], m[keys[0]]), Lines(EscapeChar, keys[1..], m);
      assert keys[0] in keys && rest + more != "" && Lines(EscapeChar, keys, m) == line + rest;
      Assoc(line, rest, more);
      SplitSkipsLine(above, keys[0], m[keys[0]], rest + more);
      SplitSkipsLines(above + line, keys[1..], m, more);
      Assoc(above, line, rest);
    }
  }

  lemma RenderedParts(secrets: SecretMap, local: SecretMap)
    ensures Rendered(secrets, local) == Printed(secrets) + ("\n" + (KEPT_MARKER + "\n" + Printed(local)))
  {
    Assoc(Printed(secrets), "\n", KEPT_MARKER);
    Assoc(Printed(secrets), "\n" + KEPT_MARKER, "\n");
    Assoc(Printed(secrets), "\n" + KEPT_MARKER + "\n", Printed(local));
    Assoc("\n", KEPT_MARKER, "\n");
    Assoc("\n", KEPT_MARKER + "\n", Printed(local));
  }

  /** What a pull wrote splits at the marker it wrote. */
  lemma SplitRendered(secrets: SecretMap, local: SecretMap)
    requires forall k :: k in secrets ==> ValidKey(k)
    ensures SplitFrom("", Rendered(secrets, local)) == Split(Printed(secrets) + "\n", Printed(local), true)
  {
    SplitFile("", Rendered(secrets, local), secrets, local);
  }

  lemma SplitFile(above: string, file: string, secrets: SecretMap, local: SecretMap)
    requires above == "" && file == Rendered(secrets, local) && forall k :: k in secrets ==> ValidKey(k)
    ensures SplitFrom(above, file) == Split(Printed(secrets) + "\n", Printed(local), true)
  {
    RenderedParts(secrets, local);
    SplitPrinted(above, secrets, Printed(local));
    assert above + Printed(secrets) == Printed(secrets);
  }

  lemma SplitPrinted(above: string, secrets: SecretMap, local: string)
    requires forall k :: k in secrets ==> ValidKey(k)
    ensures SplitFrom(above, Printed(secrets) + ("\n" + (KEPT_MARKER + "\n" + local)))
         == Split(above + Printed(secrets) + "\n", local, true)
  {
    var marked := KEPT_MARKER + "\n" + local;
    var more := "\n" + marked;
    SplitSkipsLines(above, KeyList(secrets), secrets, more);
    BlankLine(above + Printed(secrets), marked);
    AtMarker(above + Printed(secrets) + "\n", local);
  }

  lemma BlankLine(above: string, more: string)
    requires more != ""
    ensures SplitFrom(above, "\n" + more) == SplitFrom(above + "\n", more)
  {
    FirstLineOf("", more);
    assert "" + "\n" + more == "\n" + more && "" + "\n" == "\n";
    if IsMarker("\n") {
      OnlyCommentsMark("\n");
    }
  }

  lemma AtMarker(above: string, local: string)
    ensures SplitFrom(above, KEPT_MARKER + "\n" + local) == Split(above, local, true)
  {
    MarkerPlain();
    FirstLineOf(KEPT_MARKER, local);
    MarkerLine();
  }

  /** Printed text that reads back at all reads back right. */
  lemma ReadsBackIfAtAll(m: SecretMap, tail: string)
    requires InLimits(m) && (tail == "" || tail == "\n")
    ensures Imported(Printed(m) + tail).Some? ==> Imported(Printed(m) + tail) == Some(m)
  {
    BothEscape();
    PrintedStarts(EscapeChar, m, tail);
    PrintedParses(EscapeChar, m, tail);
    BlankTail(tail, m);
  }

  lemma WithoutKeys(m: SecretMap, keys: set<string>)
    ensures Without(m, keys).Keys == m.Keys - keys
  {
  }

  lemma WithoutTwice(m: SecretMap, a: set<string>, b: set<string>)
    ensures Without(Without(m, a), b) == Without(m, a + b)
  {
  }

  /** Leaving out what enbu held before and what it holds now leaves the same variables in either order. */
  lemma WithoutGone(vars: SecretMap, keys: set<string>, ever: set<string>, gone: set<string>)
    requires gone == set k | k in vars && k !in keys && k in ever
    ensures Without(vars, keys + gone) == Without(Without(vars, ever), keys)
  {
  }

  lemma PullParts(file: string, s: Split, next: SecretMap, ever: Option<set<string>>, p: Option<Pulled>)
    requires p == PullInto(file, next, ever)
    ensures s == SplitFrom("", file) && p.Some? ==>
              && Imported(s.pulled).Some? && Imported(s.local).Some?
              && p.value == Beside(Imported(s.pulled).value, Imported(s.local).value, next,
                                   Gone(s, Imported(s.local).value, next, ever))
  {
  }

  /** A pull that succeeds over a file with a marker has read both parts. */
  lemma PullMarked(file: string, s: Split, next: SecretMap, ever: Option<set<string>>, p: Option<Pulled>)
    requires p == PullOf(Some(file), next, false, ever)
    ensures s == SplitFrom("", file) && s.marked && p.Some? ==>
              && Imported(s.pulled).Some? && Imported(s.local).Some?
              && p.value == Beside(Imported(s.pulled).value, Imported(s.local).value, next, {})
  {
    PullParts(file, s, next, ever, PullInto(file, next, ever));
  }

  lemma PartReads(m: SecretMap, tail: string, part: string)
    requires InLimits(m) && (tail == "" || tail == "\n")
    ensures part == Printed(m) + tail && Imported(part).Some? ==> Imported(part) == Some(m)
  {
    ReadsBackIfAtAll(m, tail);
  }

  lemma RenderedReads(secrets: SecretMap, local: SecretMap, s: Split)
    requires InLimits(secrets) && InLimits(local)
    ensures s == Split(Printed(secrets) + "\n", Printed(local), true) ==>
              && (Imported(s.pulled).Some? ==> Imported(s.pulled) == Some(secrets))
              && (Imported(s.local).Some? ==> Imported(s.local) == Some(local))
  {
    PartReads(secrets, "\n", s.pulled);
    PartReads(local, "", s.local);
    assert Printed(local) + "" == Printed(local);
  }

  /** A pull over what an earlier pull wrote, if it succeeds, keeps the local variables that are not secrets now. */
  lemma PullAgain(secrets: SecretMap, local: SecretMap, next: SecretMap, ever: Option<set<string>>)
    requires InLimits(secrets) && InLimits(local)
    ensures var p := PullOf(Some(Rendered(secrets, local)), next, false, ever);
            p.Some? ==> p == Some(Pulled(Rendered(next, Without(local, next.Keys)), Names(local.Keys - next.Keys),
                                         Names(secrets.Keys - next.Keys)))
  {
    var file := Rendered(secrets, local);
    SplitRendered(secrets, local);
    RenderedReads(secrets, local, SplitFrom("", file));
    PullMarked(file, SplitFrom("", file), next, ever, PullOf(Some(file), next, false, ever));
    NoneGone(secrets, local, next);
  }

  lemma NoneGone(previous: SecretMap, vars: SecretMap, secrets: SecretMap)
    ensures Beside(previous, vars, secrets, {})
         == Pulled(Rendered(secrets, Without(vars, secrets.Keys)), Names(vars.Keys - secrets.Keys),
                   Names(previous.Keys - secrets.Keys))
  {
    WithoutKeys(vars, secrets.Keys);
    assert secrets.Keys + {} == secrets.Keys && previous.Keys + {} == previous.Keys;
  }

  /** The variables a first pull takes for a person's own: below the marker, or, in a
      file without one, those enbu never held. */
  ghost function LocalAtFirst(file: Option<string>, ever: Option<set<string>>): SecretMap {
    if file.None? then map[]
    else
      var s := SplitFrom("", file.value);
      OwnVars(s, if Imported(s.local).Some? then Imported(s.local).value else map[], ever)
  }

  function OwnVars(s: Split, vars: SecretMap, ever: Option<set<string>>): SecretMap {
    if s.marked || ever.None? then vars else Without(vars, ever.value)
  }

  lemma KeepsOwn(s: Split, vars: SecretMap, secrets: SecretMap, ever: Option<set<string>>)
    ensures Without(vars, secrets.Keys + Gone(s, vars, secrets, ever)) == Without(OwnVars(s, vars, ever), secrets.Keys)
  {
    var gone := Gone(s, vars, secrets, ever);
    if s.marked || ever.None? {
      assert secrets.Keys + gone == secrets.Keys;
    } else {
      WithoutGone(vars, secrets.Keys, ever.value, gone);
    }
  }

  ghost predicate PullRun(files: seq<Option<string>>, pulls: seq<SecretMap>, evers: seq<Option<set<string>>>) {
    && |files| == |pulls| + 1 && |evers| == |pulls|
    && (forall i :: 0 <= i < |pulls| ==> InLimits(pulls[i]))
    && (forall i :: 0 <= i < |pulls| ==>
          PullOf(files[i], pulls[i], false, evers[i]).Some? &&
          files[i + 1] == Some(PullOf(files[i], pulls[i], false, evers[i]).value.data))
  }

  /** Every key that one of the first `n` pulls wrote. */
  function PulledKeys(pulls: seq<SecretMap>, n: nat): set<string>
    requires n <= |pulls|
  {
    if n == 0 then {} else PulledKeys(pulls, n - 1) + pulls[n - 1].Keys
  }

  lemma LocalInLimits(file: Option<string>, ever: Option<set<string>>)
    ensures InLimits(LocalAtFirst(file, ever))
  {
    if file.Some? {
      var s := SplitFrom("", file.value);
      ImportedNames(s.local);
      if Imported(s.local).Some? {
        FewerKeys(Imported(s.local).value, LocalAtFirst(file, ever));
      }
    }
  }

  lemma FirstPull(file: Option<string>, secrets: SecretMap, ever: Option<set<string>>, p: Option<Pulled>)
    requires p == PullOf(file, secrets, false, ever)
    ensures p.Some? ==> p.value.data == Rendered(secrets, Without(LocalAtFirst(file, ever), secrets.Keys))
  {
    if file.None? {
      assert Without(LocalAtFirst(file, ever), secrets.Keys) == map[];
    } else {
      var s := SplitFrom("", file.value);
      PullParts(file.value, s, secrets, ever, PullInto(file.value, secrets, ever));
      if Imported(s.local).Some? {
        KeepsOwn(s, Imported(s.local).value, secrets, ever);
      }
    }
  }

  lemma FewerKeys(big: SecretMap, small: SecretMap)
    requires InLimits(big) && small.Keys <= big.Keys
    ensures InLimits(small)
  {
    SubsetSize(small.Keys, big.Keys);
    assert |small| == |small.Keys| && |big| == |big.Keys|;
  }

  /** After any run of pulls, the file holds the last pull's secrets, then the marker, then the original local variables
      less every key that any of the pulls wrote. */
  lemma {:induction false} PullsKeepLocal(files: seq<Option<string>>, pulls: seq<SecretMap>,
                                          evers: seq<Option<set<string>>>, n: nat)
    requires PullRun(files, pulls, evers) && 0 < n <= |pulls|
    ensures files[n] == Some(Rendered(pulls[n - 1], Without(LocalAtFirst(files[0], evers[0]), PulledKeys(pulls, n))))
    ensures InLimits(LocalAtFirst(files[0], evers[0]))
  {
    var local := LocalAtFirst(files[0], evers[0]);
    LocalInLimits(files[0], evers[0]);
    FirstPull(files[0], pulls[0], evers[0], PullOf(files[0], pulls[0], false, evers[0]));
    if n == 1 {
      assert files[0 + 1] == Some(PullOf(files[0], pulls[0], false, evers[0]).value.data);
      assert PulledKeys(pulls, 1) == pulls[0].Keys;
    } else {
      PullsKeepLocal(files, pulls, evers, n - 1);
      var kept := Without(local, PulledKeys(pulls, n - 1));
      FewerKeys(local, kept);
      assert files[(n - 1) + 1] == Some(PullOf(files[n - 1], pulls[n - 1], false, evers[n - 1]).value.data);
      PullAgain(pulls[n - 2], kept, pulls[n - 1], evers[n - 1]);
      WithoutTwice(local, PulledKeys(pulls, n - 1), pulls[n - 1].Keys);
    }
  }

  /** What the next pull reads in the two parts of that file: below the marker the local variables
      exactly when they fit; above it the last pull's secrets exactly when they fit with a byte to spare,
      for the line break that precedes the marker. */
  lemma PulledPartsReadBack(secrets: SecretMap, local: SecretMap)
    requires InLimits(secrets) && InLimits(local)
    ensures SplitFrom("", Rendered(secrets, local)).marked
    ensures Imported(SplitFrom("", Rendered(secrets, local)).pulled) == Some(secrets) <==>
              Fits(EscapeChar, secrets) && Size(Printed(secrets)) < MAX_PAYLOAD_BYTES
    ensures Imported(SplitFrom("", Rendered(secrets, local)).local) == Some(local) <==> Fits(EscapeChar, local)
  {
    BothEscape();
    SplitRendered(secrets, local);
    TailReadsBack(EscapeChar, secrets, "\n");
    RoundTripExactly(EscapeChar, local);
  }
}
