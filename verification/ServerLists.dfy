/** Server lists kept in the database under their canonical form. */
module ServerLists {
  import opened Text

  // ---------------------------------------------------------------- strings

  /** Python's order on strings. */
  predicate Leq(a: string, b: string) {
    a == "" || (b != "" && (a[0] < b[0] || (a[0] == b[0] && Leq(a[1..], b[1..]))))
  }

  lemma {:induction false} LeqTotal(a: string, b: string)
    ensures Leq(a, b) || Leq(b, a)
    ensures Leq(a, b) && Leq(b, a) ==> a == b
  {
    if a != "" && b != "" {
      LeqTotal(a[1..], b[1..]);
      assert a == [a[0]] + a[1..] && b == [b[0]] + b[1..];
    }
  }

  lemma {:induction false} LeqTransitive(a: string, b: string, c: string)
    requires Leq(a, b) && Leq(b, c)
    ensures Leq(a, c)
  {
    if a != "" && a[0] == b[0] == c[0] {
      LeqTransitive(a[1..], b[1..], c[1..]);
    }
  }

  /** Alphabetical order: the first is the beginning of the second, or has the
      lesser character where they first differ. */
  ghost predicate InOrder(a: string, b: string) {
    a <= b || exists k :: 0 <= k < |a| && k < |b| && a[..k] == b[..k] && a[k] < b[k]
  }

  lemma {:induction false} LeqIsOrder(a: string, b: string)
    ensures Leq(a, b) <==> InOrder(a, b)
  {
    if a != "" && b != "" && a[0] == b[0] {
      LeqIsOrder(a[1..], b[1..]);
      assert a == [a[0]] + a[1..] && b == [b[0]] + b[1..];
      if k :| 0 <= k < |a| - 1 && k < |b| - 1 && a[1..][..k] == b[1..][..k] && a[1..][k] < b[1..][k] {
        assert a[..k + 1] == [a[0]] + a[1..][..k] && b[..k + 1] == [b[0]] + b[1..][..k];
      }
      if k :| 0 <= k < |a| && k < |b| && a[..k] == b[..k] && a[k] < b[k] {
        assert a[1..][..k - 1] == a[..k][1..] && b[1..][..k - 1] == b[..k][1..];
      }
    } else if a != "" && b != "" && a[0] < b[0] {
      assert a[..0] == b[..0];
    } else if a != "" && b != "" {
      forall k | 0 < k < |a| && k < |b| ensures a[..k] != b[..k] {
        assert a[..k][0] != b[..k][0];
      }
    }
  }

  ghost predicate Alphabetical(list: seq<string>) {
    forall i, j :: 0 <= i < j < |list| ==> InOrder(list[i], list[j])
  }

  function Without(s: string, c: char): (r: string)
    ensures c !in r
    ensures forall d :: d in r ==> d in s
  {
    if s == "" then "" else (if s[0] == c then "" else [s[0]]) + Without(s[1..], c)
  }

  lemma {:induction false} WithoutAbsent(s: string, c: char)
    requires c !in s
    ensures Without(s, c) == s
  {
    if s != "" {
      WithoutAbsent(s[1..], c);
    }
  }

  lemma WithoutFirst(first: char, rest: string, c: char)
    ensures Without([first] + rest, c) == (if first == c then "" else [first]) + Without(rest, c)
  {
    assert ([first] + rest)[1..] == rest;
  }

  lemma {:induction false} WithoutConcat(s: string, t: string, c: char)
    ensures Without(s + t, c) == Without(s, c) + Without(t, c)
  {
    if s == "" {
      assert s + t == t;
    } else {
      assert s + t == [s[0]] + (s[1..] + t);
      WithoutFirst(s[0], s[1..] + t, c);
      WithoutConcat(s[1..], t, c);
    }
  }

  // ---------------------------------------------------------------- sorting

  ghost predicate Sorted(list: seq<string>) {
    forall i, j :: 0 <= i < j < |list| ==> Leq(list[i], list[j])
  }

  function Insert(x: string, list: seq<string>): seq<string> {
    if list == [] || Leq(x, list[0]) then [x] + list else [list[0]] + Insert(x, list[1..])
  }

  function Sort(list: seq<string>): seq<string> {
    if list == [] then [] else Insert(list[0], Sort(list[1..]))
  }

  lemma {:induction false} InsertSorts(x: string, list: seq<string>)
    requires Sorted(list)
    ensures Sorted(Insert(x, list))
    ensures multiset(Insert(x, list)) == multiset(list) + multiset{x}
  {
    if list == [] {
    } else if Leq(x, list[0]) {
      forall j | 0 <= j < |list| ensures Leq(x, list[j]) {
        if j != 0 {
          LeqTransitive(x, list[0], list[j]);
        }
      }
    } else {
      InsertSorts(x, list[1..]);
      LeqTotal(x, list[0]);
      assert list == [list[0]] + list[1..];
      var rest := Insert(x, list[1..]);
      forall y | y in rest ensures Leq(list[0], y) {
        assert y in multiset(rest);
        if y != x {
          assert y in list[1..];
        }
      }
    }
  }

  lemma {:induction false} SortSorts(list: seq<string>)
    ensures Sorted(Sort(list))
    ensures multiset(Sort(list)) == multiset(list)
  {
    if list != [] {
      SortSorts(list[1..]);
      InsertSorts(list[0], Sort(list[1..]));
      assert list == [list[0]] + list[1..];
    }
  }

  /** The sorted entries are the entries, as often as they occur, in order. */
  lemma SortIsAlphabetical(list: seq<string>)
    ensures Alphabetical(Sort(list)) && multiset(Sort(list)) == multiset(list)
  {
    SortSorts(list);
    SortedIsAlphabetical(Sort(list));
  }

  lemma SortedIsAlphabetical(list: seq<string>)
    ensures Sorted(list) <==> Alphabetical(list)
  {
    forall i, j | 0 <= i < j < |list| ensures Leq(list[i], list[j]) <==> InOrder(list[i], list[j]) {
      LeqIsOrder(list[i], list[j]);
    }
  }

  lemma HeadLeast(list: seq<string>, x: string)
    requires Sorted(list) && x in multiset(list)
    ensures list != [] && Leq(list[0], x)
  {
    var i :| 0 <= i < |list| && list[i] == x;
    LeqTotal(x, x);
  }

  lemma TailMultiset(list: seq<string>)
    requires list != []
    ensures multiset(list[1..]) == multiset(list) - multiset{list[0]}
  {
    assert list == [list[0]] + list[1..];
  }

  lemma {:induction false} SortedUnique(a: seq<string>, b: seq<string>)
    requires Sorted(a) && Sorted(b) && multiset(a) == multiset(b)
    ensures a == b
  {
    assert |multiset(a)| == |a| && |multiset(b)| == |b|;
    if a != [] {
      HeadLeast(a, b[0]);
      HeadLeast(b, a[0]);
      LeqTotal(a[0], b[0]);
      TailMultiset(a);
      TailMultiset(b);
      SortedUnique(a[1..], b[1..]);
      assert a == [a[0]] + a[1..] && b == [b[0]] + b[1..];
    }
  }

  // ---------------------------------------------------------------- canonical form

  /** How Python shows a string of printable characters inside a list. */
  function Escaped(s: string, quote: char): string {
    if s == "" then ""
    else (if s[0] == quote || s[0] == '\\' then "\\" else "") + [s[0]] + Escaped(s[1..], quote)
  }

  function QuoteFor(s: string): char {
    if '\'' in s && '"' !in s then '"' else '\''
  }

  function Shown(s: string): string {
    [QuoteFor(s)] + Escaped(s, QuoteFor(s)) + [QuoteFor(s)]
  }

  function AllShown(list: seq<string>): (shown: seq<string>)
    ensures |shown| == |list|
  {
    if list == [] then [] else [Shown(list[0])] + AllShown(list[1..])
  }

  /** The entries of a list: split at commas, spaces dropped. */
  function Entries(srvList: string): seq<string> {
    Split(Without(srvList, ' '), ',')
  }

  /** The canonical form: the entries in order, shown as a Python list without
      its brackets, with quotes and spaces dropped again. */
  function Clean(srvList: string): string {
    var sorted := Sort(Entries(srvList));
    SortedEntries(srvList);
    Without(Without(Join(AllShown(sorted), ", "), '\''), ' ')
  }

  lemma SortedEntries(srvList: string)
    ensures Sort(Entries(srvList)) != []
    ensures forall s :: s in Sort(Entries(srvList)) <==> s in Entries(srvList)
    ensures forall s :: s in Sort(Entries(srvList)) ==> ' ' !in s && ',' !in s
  {
    var entries, sorted := Entries(srvList), Sort(Entries(srvList));
    SortSorts(entries);
    assert |multiset(sorted)| == |sorted| && |multiset(entries)| == |entries|;
    assert forall s :: s in sorted <==> s in multiset(sorted);
    assert forall s :: s in entries <==> s in multiset(entries);
    forall s | s in entries ensures ' ' !in s && ',' !in s {
      SplitParts(Without(srvList, ' '), ',', s);
    }
  }

  /** What becomes of one entry: the single quotes are gone, backslashes are
      doubled, and where there were single quotes double quotes may have come. */
  function Form(s: string): string {
    Without(Shown(s), '\'')
  }

  /** A text with its backslashes doubled, and the single quotes dropped or, if they
      were escaped, only the backslashes before them left. */
  function Dropped(s: string, escaped: bool): string {
    if s == "" then ""
    else
      (if s[0] == '\\' then "\\\\" else if s[0] == '\'' then (if escaped then "\\" else "") else [s[0]])
      + Dropped(s[1..], escaped)
  }

  /** Double quotes come around an entry that has single quotes only; single quotes
      are escaped when it has both. */
  lemma FormExactly(s: string)
    ensures Form(s) ==
      if '\'' in s && '"' !in s then "\"" + Dropped(s, false) + "\"" else Dropped(s, '\'' in s)
  {
    var quote := QuoteFor(s);
    EscapedDropped(s, quote, quote == '\'' && '\'' in s);
    WithoutConcat([quote] + Escaped(s, quote), [quote], '\'');
    WithoutConcat([quote], Escaped(s, quote), '\'');
  }

  lemma {:induction false} EscapedDropped(s: string, quote: char, escaped: bool)
    requires quote == '\'' || (quote == '"' && '"' !in s)
    requires '\'' in s ==> escaped == (quote == '\'')
    ensures Without(Escaped(s, quote), '\'') == Dropped(s, escaped)
  {
    if s != "" {
      EscapedDropped(s[1..], quote, escaped);
      var head := (if s[0] == quote || s[0] == '\\' then "\\" else "") + [s[0]];
      WithoutConcat(head, Escaped(s[1..], quote), '\'');
      WithoutConcat("\\", [s[0]], '\'');
    }
  }

  function AllForms(list: seq<string>): (forms: seq<string>)
    ensures |forms| == |list|
    ensures forall i :: 0 <= i < |list| ==> forms[i] == Form(list[i])
  {
    if list == [] then [] else [Form(list[0])] + AllForms(list[1..])
  }

  lemma {:induction false} EscapedLacks(s: string, quote: char, c: char)
    requires c !in s && c != '\\'
    ensures c !in Escaped(s, quote)
  {
    if s != "" {
      EscapedLacks(s[1..], quote, c);
    }
  }

  lemma FormLacks(s: string)
    ensures '\'' !in Form(s)
    ensures ' ' !in s ==> ' ' !in Form(s)
    ensures ',' !in s ==> ',' !in Form(s)
  {
    if ' ' !in s {
      EscapedLacks(s, QuoteFor(s), ' ');
    }
    if ',' !in s {
      EscapedLacks(s, QuoteFor(s), ',');
    }
  }

  /** What dropping the quotes and then the spaces does to the first entry. */
  lemma FirstShown(s: string, tail: string)
    requires ' ' !in s
    ensures Without(Without(Shown(s) + ", " + tail, '\''), ' ') == Form(s) + "," + Without(Without(tail, '\''), ' ')
  {
    FormLacks(s);
    WithoutAbsent(Form(s), ' ');
    WithoutConcat(Shown(s) + ", ", tail, '\'');
    WithoutConcat(Shown(s), ", ", '\'');
    assert Without(", ", '\'') == ", ";
    WithoutConcat(Form(s) + ", ", Without(tail, '\''), ' ');
    WithoutConcat(Form(s), ", ", ' ');
    assert Without(", ", ' ') == ",";
  }

  lemma {:induction false} ShownJoined(list: seq<string>)
    requires list != [] && forall s :: s in list ==> ' ' !in s
    ensures Without(Without(Join(AllShown(list), ", "), '\''), ' ') == Join(AllForms(list), ",")
  {
    if |list| == 1 {
      FormLacks(list[0]);
      WithoutAbsent(Form(list[0]), ' ');
    } else {
      assert AllShown(list)[1..] == AllShown(list[1..]) && AllForms(list)[1..] == AllForms(list[1..]);
      ShownJoined(list[1..]);
      FirstShown(list[0], Join(AllShown(list[1..]), ", "));
    }
  }

  lemma {:induction false} JoinLacks(parts: seq<string>, c: char)
    requires parts != [] && c != ',' && forall s :: s in parts ==> c !in s
    ensures c !in Join(parts, ",")
  {
    if |parts| > 1 {
      JoinLacks(parts[1..], c);
      assert Join(parts, ",") == (parts[0] + ",") + Join(parts[1..], ",");
    }
  }

  function CleanEntries(srvList: string): seq<string> {
    AllForms(Sort(Entries(srvList)))
  }

  /** The detour over the text of a Python list comes to joining the forms of the
      sorted entries with commas, from which they can be read off again. */
  lemma CleanJoinsForms(srvList: string)
    ensures CleanEntries(srvList) != []
    ensures Clean(srvList) == Join(CleanEntries(srvList), ",")
    ensures Entries(Clean(srvList)) == CleanEntries(srvList)
    ensures forall f :: f in CleanEntries(srvList) ==> '\'' !in f
  {
    var sorted, forms := Sort(Entries(srvList)), CleanEntries(srvList);
    SortedEntries(srvList);
    ShownJoined(sorted);
    forall f | f in forms ensures '\'' !in f && ' ' !in f && ',' !in f {
      var i :| 0 <= i < |forms| && forms[i] == f;
      assert sorted[i] in sorted;
      FormLacks(sorted[i]);
    }
    JoinLacks(forms, ' ');
    WithoutAbsent(Clean(srvList), ' ');
    SplitJoin(forms, ',');
  }

  // ---------------------------------------------------------------- same servers

  /** The order of the servers and the spaces make no difference. */
  lemma OrderIsIgnored(a: string, b: string)
    requires multiset(Entries(a)) == multiset(Entries(b))
    ensures Clean(a) == Clean(b)
  {
    SortSorts(Entries(a));
    SortSorts(Entries(b));
    SortedUnique(Sort(Entries(a)), Sort(Entries(b)));
  }

  lemma SameFormExactly(a: string, b: string)
    ensures Clean(a) == Clean(b) <==> CleanEntries(a) == CleanEntries(b)
  {
    CleanJoinsForms(a);
    CleanJoinsForms(b);
  }

  /** Without single quotes the only change is the doubling of backslashes. */
  lemma FormDoubles(s: string)
    requires '\'' !in s
    ensures Form(s) == Escaped(s, '\'')
  {
    var escaped := Escaped(s, '\'');
    EscapedLacks(s, '\'', '\'');
    WithoutConcat(['\''] + escaped, ['\''], '\'');
    WithoutConcat(['\''], escaped, '\'');
    WithoutAbsent(escaped, '\'');
  }

  lemma {:induction false} EscapedInjective(s: string, t: string, quote: char)
    requires Escaped(s, quote) == Escaped(t, quote)
    ensures s == t
  {
    if s != "" && t != "" {
      EscapedHead(s, quote);
      EscapedHead(t, quote);
      EscapedInjective(s[1..], t[1..], quote);
      assert s == [s[0]] + s[1..] && t == [t[0]] + t[1..];
    }
  }

  lemma EscapedHead(s: string, quote: char)
    requires s != ""
    ensures var e := Escaped(s, quote);
      if s[0] == quote || s[0] == '\\' then |e| >= 2 && e[0] == '\\' && e[1] == s[0] && e[2..] == Escaped(s[1..], quote)
      else |e| >= 1 && e[0] == s[0] && e[1..] == Escaped(s[1..], quote)
  {}

  predicate NoSingleQuotes(list: seq<string>) {
    forall s :: s in list ==> '\'' !in s
  }

  lemma FormsInjective(a: seq<string>, b: seq<string>)
    requires NoSingleQuotes(a) && NoSingleQuotes(b) && AllForms(a) == AllForms(b)
    ensures a == b
  {
    forall i | 0 <= i < |a| ensures a[i] == b[i] {
      assert a[i] in a && b[i] in b && AllForms(a)[i] == AllForms(b)[i];
      FormDoubles(a[i]);
      FormDoubles(b[i]);
      EscapedInjective(a[i], b[i], '\'');
    }
  }

  /** Two lists without single quotes have one canonical form exactly when they
      name the same servers equally often. */
  lemma SameServersExactly(a: string, b: string)
    requires NoSingleQuotes(Entries(a)) && NoSingleQuotes(Entries(b))
    ensures Clean(a) == Clean(b) <==> multiset(Entries(a)) == multiset(Entries(b))
  {
    if Clean(a) == Clean(b) {
      SameFormExactly(a, b);
      SortedEntries(a);
      SortedEntries(b);
      FormsInjective(Sort(Entries(a)), Sort(Entries(b)));
      SortSorts(Entries(a));
      SortSorts(Entries(b));
    } else if multiset(Entries(a)) == multiset(Entries(b)) {
      OrderIsIgnored(a, b);
    }
  }

  /** With single quotes two different servers can be confused: any name with a
      quote behind it and the same name between double quotes. */
  lemma QuotesConfuse(x: string)
    requires '\'' !in x && '"' !in x && '\\' !in x && ',' !in x && ' ' !in x
    ensures Clean(x + "'") == Clean("\"" + x + "\"")
    ensures Entries(x + "'") != Entries("\"" + x + "\"")
  {
    var a, b := x + "'", "\"" + x + "\"";
    SingleEntry(a);
    SingleEntry(b);
    assert a[|x|] == '\'' && b[0] == '"';
    QuotedForm(x);
    FormDoubles(b);
    EscapedPlain(b, '\'');
  }

  lemma QuotedForm(x: string)
    requires '\'' !in x && '"' !in x && '\\' !in x
    ensures Form(x + "'") == "\"" + x + "\""
  {
    var a := x + "'";
    assert a[|x|] == '\'';
    EscapedPlain(a, '"');
    WithoutConcat(['"'] + a, ['"'], '\'');
    WithoutConcat(['"'], a, '\'');
    WithoutConcat(x, "'", '\'');
    WithoutAbsent(x, '\'');
    WithoutAbsent(['"'], '\'');
    assert Without("'", '\'') == "";
    assert Without(a, '\'') == x;
  }

  lemma {:induction false} EscapedPlain(s: string, quote: char)
    requires quote !in s && '\\' !in s
    ensures Escaped(s, quote) == s
  {
    if s != "" {
      EscapedPlain(s[1..], quote);
    }
  }

  lemma SingleEntry(s: string)
    requires ',' !in s && ' ' !in s
    ensures Entries(s) == [s] && Clean(s) == Form(s)
  {
    WithoutAbsent(s, ' ');
    SplitFirst(s, ',', "");
    assert Sort([s]) == [s];
    CleanJoinsForms(s);
    assert CleanEntries(s) == [Form(s)];
  }

  // ---------------------------------------------------------------- idempotence

  /** The list contains no backslash and no entry with both kinds of quotes, and
      dropping the single quotes leaves the entries in order. */
  ghost predicate Settled(srvList: string) {
    && (forall e :: e in Entries(srvList) ==> NoBackslashComes(e))
    && Alphabetical(CleanEntries(srvList))
  }

  predicate NoBackslashComes(e: string) {
    '\\' !in e && !('\'' in e && '"' in e)
  }

  lemma {:induction false} EscapedBackslash(s: string, quote: char)
    ensures '\\' in Escaped(s, quote) <==> '\\' in s || quote in s
    ensures |s| <= |Escaped(s, quote)|
    ensures |s| == |Escaped(s, quote)| <==> '\\' !in s && quote !in s
  {
    if s != "" {
      EscapedBackslash(s[1..], quote);
    }
  }

  lemma {:induction false} WithoutKeeps(s: string, c: char, d: char)
    requires c != d
    ensures d in Without(s, c) <==> d in s
  {
    if s != "" {
      WithoutKeeps(s[1..], c, d);
    }
  }

  lemma FormBackslash(s: string)
    ensures '\\' in Form(s) <==> !NoBackslashComes(s)
  {
    EscapedBackslash(s, QuoteFor(s));
    WithoutKeeps(Shown(s), '\'', '\\');
  }

  /** The forms of the entries of a clean list, and what a second cleaning does. */
  lemma CleanForms(srvList: string)
    ensures NoSingleQuotes(CleanEntries(srvList))
    ensures (forall f :: f in CleanEntries(srvList) ==> '\\' !in f) <==>
            (forall e :: e in Entries(srvList) ==> NoBackslashComes(e))
  {
    CleanJoinsForms(srvList);
    SortedEntries(srvList);
    var sorted, forms := Sort(Entries(srvList)), CleanEntries(srvList);
    forall i | 0 <= i < |forms| ensures '\\' in forms[i] <==> !NoBackslashComes(sorted[i]) {
      FormBackslash(sorted[i]);
    }
    if e :| e in Entries(srvList) && !NoBackslashComes(e) {
      assert e in sorted;
      var i :| 0 <= i < |sorted| && sorted[i] == e;
      assert forms[i] in forms;
    }
  }

  function Length(list: seq<string>): nat {
    if list == [] then 0 else |list[0]| + Length(list[1..])
  }

  lemma {:induction false} InsertLength(x: string, list: seq<string>)
    ensures Length(Insert(x, list)) == |x| + Length(list)
  {
    if list != [] && !Leq(x, list[0]) {
      InsertLength(x, list[1..]);
    }
  }

  lemma {:induction false} SortLength(list: seq<string>)
    ensures Length(Sort(list)) == Length(list)
  {
    if list != [] {
      SortLength(list[1..]);
      InsertLength(list[0], Sort(list[1..]));
    }
  }

  /** Cleaning entries without single quotes makes them longer by the number of
      their backslashes, and leaves them alone when there are none. */
  lemma {:induction false} FormsLength(list: seq<string>)
    requires NoSingleQuotes(list)
    ensures Length(list) <= Length(AllForms(list))
    ensures Length(list) == Length(AllForms(list)) ==> forall s :: s in list ==> '\\' !in s
    ensures (forall s :: s in list ==> '\\' !in s) ==> AllForms(list) == list
  {
    if list != [] {
      assert NoSingleQuotes(list[1..]);
      FormsLength(list[1..]);
      FormDoubles(list[0]);
      EscapedBackslash(list[0], '\'');
      assert AllForms(list)[1..] == AllForms(list[1..]);
      assert forall s :: s in list <==> s == list[0] || s in list[1..];
      if forall s :: s in list ==> '\\' !in s {
        EscapedPlain(list[0], '\'');
      }
    }
  }

  lemma SortKeeps(list: seq<string>)
    ensures forall s :: s in Sort(list) <==> s in list
    ensures Sort(list) == list <==> Sorted(list)
  {
    SortSorts(list);
    assert |multiset(Sort(list))| == |Sort(list)| && |multiset(list)| == |list|;
    assert forall s :: s in Sort(list) <==> s in multiset(Sort(list));
    assert forall s :: s in list <==> s in multiset(list);
    if Sorted(list) {
      SortedUnique(Sort(list), list);
    }
  }

  /** A canonical form is its own canonical form if and only if the list was
      settled: for every list. */
  lemma CleanIdempotentExactly(srvList: string)
    ensures Clean(Clean(srvList)) == Clean(srvList) <==> Settled(srvList)
  {
    var forms := CleanEntries(srvList);
    CleanForms(srvList);
    CleanJoinsForms(srvList);
    SortedIsAlphabetical(forms);
    SortKeeps(forms);
    SortLength(forms);
    FormsLength(Sort(forms));
    SameFormExactly(Clean(srvList), srvList);
    assert CleanEntries(Clean(srvList)) == AllForms(Sort(forms));
  }

  /** Which lists cleaning leaves alone but for the order and the spaces. */
  lemma FormsSame(list: seq<string>)
    ensures AllForms(list) == list <==> forall e :: e in list ==> '\'' !in e && '\\' !in e
  {
    if AllForms(list) == list {
      forall e | e in list ensures '\'' !in e && '\\' !in e {
        var i :| 0 <= i < |list| && list[i] == e;
        assert AllForms(list)[i] == e;
        FormSame(e);
      }
    } else if forall e :: e in list ==> '\'' !in e && '\\' !in e {
      FormsLength(list);
    }
  }

  lemma FormSame(e: string)
    requires Form(e) == e
    ensures '\'' !in e && '\\' !in e
  {
    FormLacks(e);
    FormDoubles(e);
    EscapedBackslash(e, '\'');
  }

  lemma JoinInjective(a: seq<string>, b: seq<string>)
    requires a != [] && b != [] && Join(a, ",") == Join(b, ",")
    requires forall s :: s in a || s in b ==> ',' !in s
    ensures a == b
  {
    SplitJoin(a, ',');
    SplitJoin(b, ',');
  }

  lemma FormsLackCommas(srvList: string)
    ensures forall f :: f in CleanEntries(srvList) ==> ',' !in f
  {
    var sorted, forms := Sort(Entries(srvList)), CleanEntries(srvList);
    SortedEntries(srvList);
    forall f | f in forms ensures ',' !in f {
      var i :| 0 <= i < |forms| && forms[i] == f;
      assert sorted[i] in sorted;
      FormLacks(sorted[i]);
    }
  }

  /** The canonical form is the sorted entries joined exactly if no entry has a
      single quote or a backslash. */
  lemma CleanIsSortedJoinExactly(srvList: string)
    ensures Sort(Entries(srvList)) != []
    ensures Alphabetical(Sort(Entries(srvList))) && multiset(Sort(Entries(srvList))) == multiset(Entries(srvList))
    ensures Clean(srvList) == Join(Sort(Entries(srvList)), ",") <==>
            forall e :: e in Entries(srvList) ==> '\'' !in e && '\\' !in e
  {
    CleanJoinsForms(srvList);
    SortedEntries(srvList);
    FormsSame(Sort(Entries(srvList)));
    SortIsAlphabetical(Entries(srvList));
    if Clean(srvList) == Join(Sort(Entries(srvList)), ",") {
      FormsLackCommas(srvList);
      JoinInjective(CleanEntries(srvList), Sort(Entries(srvList)));
    }
  }

  /** Without single quotes it is its own canonical form exactly if there is no
      backslash. */
  lemma BackslashUnsettles(srvList: string)
    requires NoSingleQuotes(Entries(srvList))
    ensures Settled(srvList) <==> forall e :: e in Entries(srvList) ==> '\\' !in e
  {
    if forall e :: e in Entries(srvList) ==> '\\' !in e {
      SortedEntries(srvList);
      SortIsAlphabetical(Entries(srvList));
      FormsSame(Sort(Entries(srvList)));
    }
  }

  // ---------------------------------------------------------------- table

  ghost predicate Registered(rows: map<int, string>, srvList: string) {
    exists id :: id in rows && rows[id] == srvList
  }

  ghost predicate OneToOne(rows: map<int, string>) {
    forall id, other :: id in rows && other in rows && rows[id] == rows[other] ==> id == other
  }

  /** Each list is its own canonical form and has one ID. */
  ghost predicate Faithful(rows: map<int, string>) {
    OneToOne(rows) && forall id :: id in rows ==> Clean(rows[id]) == rows[id]
  }

  /** A call: the canonical form that is looked up, the list that is stored when
      there is none, and the ID that is given. */
  datatype Call = Call(canonical: string, stored: string, autoAlloc: bool, id: int)

  /** A new list is cleaned again before it is stored. */
  function CallFor(srvList: string, autoAlloc: bool, id: int): Call {
    Call(Clean(srvList), Clean(Clean(srvList)), autoAlloc, id)
  }

  ghost predicate Stores(rows: map<int, string>, call: Call) {
    call.autoAlloc && !Registered(rows, call.canonical)
  }

  ghost function After(rows: map<int, string>, call: Call): map<int, string> {
    if Stores(rows, call) then rows[call.id := call.stored] else rows
  }

  /** Which ID may be given. */
  ghost predicate Answers(rows: map<int, string>, call: Call) {
    if Registered(rows, call.canonical) then call.id in rows && rows[call.id] == call.canonical
    else if call.autoAlloc then 0 <= call.id && call.id !in rows
    else call.id == -1
  }

  /** The table of server lists. */
  class SrvListTable {
    var rows: map<int, string>

    ghost predicate Valid()
      reads this
    {
      forall id :: id in rows ==> 0 <= id
    }

    constructor ()
      ensures Valid() && rows == map[]
    {
      rows := map[];
    }

    /** In a faithful table a list that is found is canonical and belongs to no
        other ID. */
    method GetListFromId(id: int) returns (found: bool, srvList: string)
      ensures found == (id in rows)
      ensures found ==> srvList == rows[id]
      ensures found && Faithful(rows) ==> Clean(srvList) == srvList
      ensures found && Faithful(rows) ==> forall other :: other in rows && rows[other] == srvList ==> other == id
    {
      found := id in rows;
      srvList := if found then rows[id] else "";
    }

    /** `draws` are the random numbers; the first unused one becomes the ID. */
    method AddSrvList(srvList: string, draws: seq<nat>) returns (id: nat)
      requires exists i :: 0 <= i < |draws| && draws[i] !in rows
      modifies this
      ensures id in draws && id !in old(rows) && rows == old(rows)[id := Clean(srvList)]
    {
      var n := 0;
      while draws[n] in rows
        invariant 0 <= n < |draws|
        invariant forall i :: 0 <= i < n ==> draws[i] in rows
        decreases |draws| - n
      {
        n := n + 1;
      }
      id := draws[n];
      rows := rows[id := Clean(srvList)];
    }

    method FindId(canonical: string) returns (id: int)
      requires Valid()
      ensures if Registered(rows, canonical) then id in rows && rows[id] == canonical else id == -1
    {
      if found: int :| found in rows && rows[found] == canonical {
        id := found;
      } else {
        id := -1;
      }
    }

    method GetIdFromList(srvList: string, autoAlloc: bool, draws: seq<nat>) returns (id: int)
      requires Valid() && exists i :: 0 <= i < |draws| && draws[i] !in rows
      modifies this
      ensures Valid() && Answers(old(rows), CallFor(srvList, autoAlloc, id))
      ensures rows == After(old(rows), CallFor(srvList, autoAlloc, id))
    {
      var canonical := Clean(srvList);
      id := FindId(canonical);
      if id == -1 && autoAlloc {
        id := AddSrvList(canonical, draws);
      }
    }
  }

  lemma CallSettled(srvList: string, autoAlloc: bool, id: int)
    ensures var call := CallFor(srvList, autoAlloc, id); call.stored == call.canonical <==> Settled(srvList)
  {
    CleanIdempotentExactly(srvList);
  }

  /** The ID leads back to the canonical form, and a second call gives the same
      ID, if and only if the form was there before or the list is settled;
      otherwise the second call allocates again. */
  lemma SecondCallExactly(rows: map<int, string>, srvList: string, id: int, again: int)
    requires var call, repeated := CallFor(srvList, true, id), CallFor(srvList, true, again);
      Answers(rows, call) && Answers(After(rows, call), repeated)
    ensures var after := After(rows, CallFor(srvList, true, id));
      var last := After(after, CallFor(srvList, true, again));
      var known := Registered(rows, Clean(srvList)) || Settled(srvList);
      && id in after && (after[id] == Clean(srvList) <==> known)
      && (OneToOne(rows) ==> (again == id <==> known))
      && (!known ==> again !in after && last == after[again := after[id]])
  {
    CallSettled(srvList, true, id);
    RepeatedCall(rows, CallFor(srvList, true, id), again);
  }

  lemma RepeatedCall(rows: map<int, string>, call: Call, again: int)
    requires Answers(rows, call) && call.autoAlloc && Answers(After(rows, call), call.(id := again))
    ensures var after := After(rows, call);
      var known := Registered(rows, call.canonical) || call.stored == call.canonical;
      && call.id in after && (after[call.id] == call.canonical <==> known)
      && (OneToOne(rows) ==> (again == call.id <==> known))
      && (!known ==> again !in after && After(after, call.(id := again)) == after[again := after[call.id]])
  {
    var after := After(rows, call);
    assert call.id in after;
    if Stores(rows, call) && call.stored != call.canonical {
      forall i | i in after ensures after[i] != call.canonical {
        assert i != call.id ==> i in rows;
      }
    }
  }

  // ---------------------------------------------------------------- runs

  /** The table after calls that started from an empty one. */
  ghost function Table(calls: seq<Call>): map<int, string> {
    if calls == [] then map[] else After(Table(calls[..|calls| - 1]), calls[|calls| - 1])
  }

  ghost predicate IsRun(calls: seq<Call>) {
    calls == [] ||
    (IsRun(calls[..|calls| - 1]) && Answers(Table(calls[..|calls| - 1]), calls[|calls| - 1]))
  }

  /** The ID given by a call leads to the canonical form it was given for. */
  ghost predicate LeadsBack(rows: map<int, string>, call: Call) {
    call.id == -1 || (call.id in rows && rows[call.id] == call.canonical)
  }

  ghost predicate AllLeadBack(calls: seq<Call>) {
    forall call :: call in calls ==> LeadsBack(Table(calls), call)
  }

  /** Whatever was stored on the way was canonical. */
  ghost predicate StoredSettled(calls: seq<Call>) {
    calls == [] ||
    (StoredSettled(calls[..|calls| - 1]) &&
     (Stores(Table(calls[..|calls| - 1]), calls[|calls| - 1]) ==>
        calls[|calls| - 1].stored == calls[|calls| - 1].canonical))
  }

  ghost predicate KnownIds(rows: map<int, string>, calls: seq<Call>) {
    && (forall call :: call in calls && call.id != -1 ==> call.id in rows)
    && (forall id :: id in rows ==> 0 <= id)
  }

  /** One more call changes no row, so it decides about itself only. */
  lemma OneMoreCall(rows: map<int, string>, calls: seq<Call>, call: Call)
    requires Answers(rows, call) && KnownIds(rows, calls)
    ensures KnownIds(After(rows, call), calls + [call])
    ensures forall c :: c in calls ==> (LeadsBack(After(rows, call), c) <==> LeadsBack(rows, c))
    ensures LeadsBack(After(rows, call), call) <==> (Stores(rows, call) ==> call.stored == call.canonical)
    ensures OneToOne(rows) && (Stores(rows, call) ==> call.stored == call.canonical) ==> OneToOne(After(rows, call))
  {}

  /** In a table filled through calls only, every ID leads back to the canonical
      form it was given for if and only if each list was settled when it was
      stored; then canonical lists and IDs are one to one. */
  lemma {:induction false} TableFaithfulExactly(calls: seq<Call>)
    requires IsRun(calls)
    ensures KnownIds(Table(calls), calls)
    ensures AllLeadBack(calls) <==> StoredSettled(calls)
    ensures StoredSettled(calls) ==> OneToOne(Table(calls))
  {
    if calls != [] {
      var front, call := calls[..|calls| - 1], calls[|calls| - 1];
      TableFaithfulExactly(front);
      OneMoreCall(Table(front), front, call);
      assert calls == front + [call];
      assert forall c :: c in calls <==> c in front || c == call;
    }
  }

  /** Two calls of such a run give one ID exactly when the canonical forms agree. */
  lemma IdsFaithful(calls: seq<Call>, i: nat, j: nat)
    requires IsRun(calls) && StoredSettled(calls)
    requires i < |calls| && j < |calls| && calls[i].id != -1 && calls[j].id != -1
    ensures calls[i].id == calls[j].id <==> calls[i].canonical == calls[j].canonical
  {
    TableFaithfulExactly(calls);
    assert calls[i] in calls && calls[j] in calls;
  }

  ghost predicate FromSettled(call: Call) {
    exists srvList :: Settled(srvList) && call == CallFor(srvList, call.autoAlloc, call.id)
  }

  lemma SettledCall(call: Call)
    requires FromSettled(call)
    ensures call.stored == call.canonical && Clean(call.stored) == call.stored
  {
    var srvList :| Settled(srvList) && call == CallFor(srvList, call.autoAlloc, call.id);
    CallSettled(srvList, call.autoAlloc, call.id);
  }

  lemma StoreKeepsFaithful(rows: map<int, string>, call: Call)
    requires Faithful(rows) && OneToOne(After(rows, call)) && Clean(call.stored) == call.stored
    ensures Faithful(After(rows, call))
  {}

  /** While all lists are settled, what is stored is canonical. */
  lemma {:induction false} SettledCalls(calls: seq<Call>)
    requires IsRun(calls) && forall call :: call in calls ==> FromSettled(call)
    ensures StoredSettled(calls) && Faithful(Table(calls))
  {
    if calls == [] {
      assert Table(calls) == map[];
    } else {
      var front, call := calls[..|calls| - 1], calls[|calls| - 1];
      SettledCalls(front);
      SettledCall(call);
      TableFaithfulExactly(calls);
      StoreKeepsFaithful(Table(front), call);
    }
  }
}
