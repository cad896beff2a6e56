/**
 * The starter of the ensure_set_weights pm2 process: it finds the running process, edits
 * its argument namespace (netuids added, removed and sorted, overrides merged in) and
 * flattens the namespace into the argv of `pm2 start`.
 *
 * An argparse namespace is an ordered list of named fields: setting an existing field
 * changes its value where it stands, setting a new one appends it, and iteration follows
 * that order.
 */
module ProcessArgs {
  import opened Common

  const SCRIPT_NAME: string := "ensure_set_weights"

  /** A namespace value: None, a bool, a float or string carried as its str() text, or a list of ints. */
  datatype ArgValue = NoneValue | Flag(b: bool) | Text(text: string) | IntList(items: seq<int>)

  datatype Field = Field(name: string, value: ArgValue)

  /** The field names, in order. */
  function Names(ns: seq<Field>): (r: seq<string>)
    ensures |r| == |ns| && forall i :: 0 <= i < |ns| ==> r[i] == ns[i].name
  {
    seq(|ns|, i requires 0 <= i < |ns| => ns[i].name)
  }

  /** `getattr(ns, name)`, None when the namespace has no such attribute. */
  function Lookup(ns: seq<Field>, name: string): (v: Option<ArgValue>)
    ensures v.Some? <==> name in Names(ns)
  {
    if name in Names(ns) then Some(ns[IndexOf(Names(ns), name)].value) else None
  }

  /** `setattr(ns, name, v)`: an existing field keeps its place, a new one goes last. */
  function SetAttr(ns: seq<Field>, name: string, v: ArgValue): (r: seq<Field>)
    ensures name in Names(ns) ==> Names(r) == Names(ns)
    ensures name !in Names(ns) ==> Names(r) == Names(ns) + [name]
  {
    if name in Names(ns) then ns[IndexOf(Names(ns), name) := Field(name, v)] else ns + [Field(name, v)]
  }

  /** setattr then getattr: the new value is read back, every other attribute is unchanged. */
  lemma SetAttrLookup(ns: seq<Field>, name: string, v: ArgValue, other: string)
    requires NoDup(Names(ns))
    ensures Lookup(SetAttr(ns, name, v), name) == Some(v)
    ensures other != name ==> Lookup(SetAttr(ns, name, v), other) == Lookup(ns, other)
  {
    var r := SetAttr(ns, name, v);
    if other != name && other in Names(ns) {
      var k := IndexOf(Names(ns), other);
      assert IndexOf(Names(r), other) == k by {
        if name in Names(ns) {
          assert Names(r) == Names(ns);
        } else {
          assert Names(r)[..|ns|] == Names(ns);
        }
      }
    }
    if name in Names(ns) {
      assert Names(r) == Names(ns);
    } else {
      var k := IndexOf(Names(r), name);
      assert Names(r)[|ns|] == name;
      assert k == |ns|;
    }
  }

  /** A namespace argparse could produce: distinct names, and netuids, when present, a list. */
  predicate WellFormed(ns: seq<Field>)
  {
    NoDup(Names(ns)) && (Lookup(ns, "netuids").Some? ==> Lookup(ns, "netuids").value.IntList?)
  }

  /** The netuids list of a namespace; empty when the attribute is absent. */
  function NetuidsOf(ns: seq<Field>): seq<int>
  {
    match Lookup(ns, "netuids")
    case Some(IntList(items)) => items
    case _ => []
  }

  /** setattr keeps the names distinct. */
  lemma SetAttrNoDup(ns: seq<Field>, name: string, v: ArgValue)
    requires NoDup(Names(ns))
    ensures NoDup(Names(SetAttr(ns, name, v)))
  {
    if name !in Names(ns) {
      var n := Names(ns) + [name];
      forall i, j | 0 <= i < j < |n|
        ensures n[i] != n[j]
      {
        if j == |n| - 1 {
          assert n[i] == Names(ns)[i];
        }
      }
    }
  }

  // ---------------------------------------------------------------- netuid edits

  /** Removes the first occurrence of `x`, as list.remove does; `x` must occur. */
  function RemoveFirst(s: seq<int>, x: int): (r: seq<int>)
    requires x in s
    ensures |r| == |s| - 1
  {
    if s[0] == x then s[1..] else [s[0]] + RemoveFirst(s[1..], x)
  }

  /** The --add loop: each netuid is appended unless already present. */
  function AddNetuids(s: seq<int>, add: seq<int>): seq<int>
  {
    if add == [] then s
    else
      var t := AddNetuids(s, add[..|add| - 1]);
      var x := add[|add| - 1];
      if x in t then t else t + [x]
  }

  /** The --remove loop: each netuid present loses one occurrence; an absent one is skipped. */
  function RemoveNetuids(s: seq<int>, remove: seq<int>): seq<int>
  {
    if remove == [] then s
    else
      var t := RemoveNetuids(s, remove[..|remove| - 1]);
      var x := remove[|remove| - 1];
      if x in t then RemoveFirst(t, x) else t
  }

  /** Ascending order. */
  predicate Ascending(s: seq<int>)
  {
    forall i, j :: 0 <= i < j < |s| ==> s[i] <= s[j]
  }

  /** Inserts `x` before the first larger element. */
  function Insert(s: seq<int>, x: int): (r: seq<int>)
    ensures multiset(r) == multiset(s) + multiset{x}
  {
    if s == [] || x <= s[0] then [x] + s
    else
      assert s == [s[0]] + s[1..];
      [s[0]] + Insert(s[1..], x)
  }

  /** `sorted()` on a list of ints. */
  function SortInts(s: seq<int>): (r: seq<int>)
    ensures multiset(r) == multiset(s)
  {
    if s == [] then []
    else
      assert s == s[..|s| - 1] + [s[|s| - 1]];
      Insert(SortInts(s[..|s| - 1]), s[|s| - 1])
  }

  /** The netuids after an edit: added, removed, sorted. */
  function EditedNetuids(s: seq<int>, add: seq<int>, remove: seq<int>): seq<int>
  {
    SortInts(RemoveNetuids(AddNetuids(s, add), remove))
  }

  /** An ascending list stays ascending under a head no larger than its first element. */
  lemma ConsAscending(h: int, t: seq<int>)
    requires Ascending(t) && (t != [] ==> h <= t[0])
    ensures Ascending([h] + t)
  {
    var r := [h] + t;
    forall i, j | 0 <= i < j < |r|
      ensures r[i] <= r[j]
    {
      assert r[j] == t[j - 1];
      if i > 0 {
        assert r[i] == t[i - 1];
      } else {
        assert t[0] <= t[j - 1];
      }
    }
  }

  /** Insertion keeps a list ascending; its head is the new element or the old head. */
  lemma {:induction false} InsertAscending(s: seq<int>, x: int)
    requires Ascending(s)
    ensures Ascending(Insert(s, x))
    ensures |Insert(s, x)| == |s| + 1
    ensures Insert(s, x)[0] == x || (s != [] && Insert(s, x)[0] == s[0])
  {
    if s == [] || x <= s[0] {
      ConsAscending(x, s);
    } else {
      var tail := s[1..];
      assert Ascending(tail);
      InsertAscending(tail, x);
      var r := Insert(tail, x);
      assert r[0] == x || r[0] == tail[0];
      ConsAscending(s[0], r);
    }
  }

  /** sorted() returns its input's elements in ascending order. */
  lemma {:induction false} SortIntsCorrect(s: seq<int>)
    ensures Ascending(SortInts(s)) && multiset(SortInts(s)) == multiset(s)
  {
    if s != [] {
      SortIntsCorrect(s[..|s| - 1]);
      InsertAscending(SortInts(s[..|s| - 1]), s[|s| - 1]);
    }
  }

  /** list.remove drops exactly one copy of the element. */
  lemma {:induction false} RemoveFirstCount(s: seq<int>, x: int)
    requires x in s
    ensures multiset(RemoveFirst(s, x)) == multiset(s) - multiset{x}
  {
    assert s == [s[0]] + s[1..];
    if s[0] != x {
      RemoveFirstCount(s[1..], x);
    }
  }

  /**
   * After the --add loop a netuid occurs as often as before when it was present, once when
   * it was absent and added, and not at all otherwise.
   */
  lemma {:induction false} AddNetuidsCount(s: seq<int>, add: seq<int>, x: int)
    ensures multiset(AddNetuids(s, add))[x] ==
      if x in s then multiset(s)[x] else if x in add then 1 else 0
  {
    if add != [] {
      var init := add[..|add| - 1];
      var y := add[|add| - 1];
      AddNetuidsCount(s, init, x);
      AddNetuidsCount(s, init, y);
      assert add == init + [y];
      var t := AddNetuids(s, init);
      assert x in t <==> multiset(t)[x] > 0;
      assert y in t <==> multiset(t)[y] > 0;
    }
  }

  /**
   * After the --remove loop a netuid occurs as often as before less the number of times it
   * was given to --remove, never fewer than zero times.
   */
  lemma {:induction false} RemoveNetuidsCount(s: seq<int>, remove: seq<int>, x: int)
    ensures multiset(RemoveNetuids(s, remove))[x] ==
      if multiset(s)[x] >= multiset(remove)[x] then multiset(s)[x] - multiset(remove)[x] else 0
  {
    if remove != [] {
      var init := remove[..|remove| - 1];
      var y := remove[|remove| - 1];
      RemoveNetuidsCount(s, init, x);
      assert remove == init + [y];
      var t := RemoveNetuids(s, init);
      if y in t {
        RemoveFirstCount(t, y);
      } else if y == x {
        assert multiset(t)[x] == 0;
      }
    }
  }

  /**
   * The edited netuids are sorted ascending and a permutation of the added-then-removed
   * list; when the existing list had no duplicates neither does the result, and then a
   * netuid given to --remove is absent, even when it was also given to --add.
   */
  lemma EditedNetuidsCorrect(s: seq<int>, add: seq<int>, remove: seq<int>)
    ensures var r := EditedNetuids(s, add, remove);
      Ascending(r) && multiset(r) == multiset(RemoveNetuids(AddNetuids(s, add), remove))
    ensures NoDup(s) ==> NoDup(EditedNetuids(s, add, remove))
    ensures forall x :: NoDup(s) && x in remove ==> x !in EditedNetuids(s, add, remove)
    ensures forall x :: x in add && x !in remove ==> x in EditedNetuids(s, add, remove)
  {
    var r := EditedNetuids(s, add, remove);
    var mid := RemoveNetuids(AddNetuids(s, add), remove);
    SortIntsCorrect(mid);
    if NoDup(s) {
      forall x
        ensures multiset(r)[x] <= 1
      {
        NoDupCount(s, x);
        AddNetuidsCount(s, add, x);
        RemoveNetuidsCount(AddNetuids(s, add), remove, x);
      }
      CountAtMostOneNoDup(r);
    }
    forall x | NoDup(s) && x in remove
      ensures x !in r
    {
      NoDupCount(s, x);
      AddNetuidsCount(s, add, x);
      RemoveNetuidsCount(AddNetuids(s, add), remove, x);
      assert multiset(remove)[x] >= 1;
      assert multiset(r)[x] == 0;
    }
    forall x | x in add && x !in remove
      ensures x in r
    {
      AddNetuidsCount(s, add, x);
      RemoveNetuidsCount(AddNetuids(s, add), remove, x);
      if x in s {
        assert multiset(s)[x] > 0;
      }
      assert multiset(r)[x] > 0;
    }
  }

  /** Without duplicates every element occurs at most once. */
  lemma {:induction false} NoDupCount(s: seq<int>, x: int)
    requires NoDup(s)
    ensures multiset(s)[x] <= 1
  {
    if s != [] {
      var init := s[..|s| - 1];
      assert s == init + [s[|s| - 1]];
      assert NoDup(init);
      NoDupCount(init, x);
      if x == s[|s| - 1] {
        assert x !in init;
      }
    }
  }

  /** A sequence whose every element occurs at most once has no duplicates. */
  lemma CountAtMostOneNoDup(s: seq<int>)
    requires forall x :: multiset(s)[x] <= 1
    ensures NoDup(s)
  {
    forall i, j | 0 <= i < j < |s|
      ensures s[i] != s[j]
    {
      assert s == s[..i] + [s[i]] + s[i + 1..j] + [s[j]] + s[j + 1..];
      assert multiset(s)[s[i]] >= 1 + (if s[j] == s[i] then 1 else 0);
    }
  }

  // ---------------------------------------------------------------- override merge

  /**
   * Whether an override field replaces the existing value: discord_notify only when it is
   * False (the --skip-discord-notify flag was given), any other field except netuids when
   * it is not None.
   */
  predicate Overrides(f: Field)
  {
    if f.name == "discord_notify" then f.value == Flag(false) else f.name != "netuids" && f.value != NoneValue
  }

  /** The override loop: each overriding field is set on the namespace, in order. */
  function MergeExtras(ns: seq<Field>, extras: seq<Field>): seq<Field>
  {
    if extras == [] then ns
    else
      var m := MergeExtras(ns, extras[..|extras| - 1]);
      var f := extras[|extras| - 1];
      if Overrides(f) then SetAttr(m, f.name, f.value) else m
  }

  /** getattr on a namespace extended by one field. */
  lemma LookupSnoc(init: seq<Field>, f: Field, n: string)
    requires NoDup(Names(init + [f]))
    ensures Lookup(init + [f], n) == if f.name == n then Some(f.value) else Lookup(init, n)
  {
    var all := init + [f];
    assert Names(all)[..|init|] == Names(init);
    assert Names(all)[|init|] == f.name;
    if f.name == n {
      forall k | 0 <= k < |init|
        ensures Names(all)[k] != n
      {
        assert Names(all)[k] != Names(all)[|init|];
      }
      assert IndexOf(Names(all), n) == |init|;
    } else if n in Names(init) {
      var k := IndexOf(Names(init), n);
      assert IndexOf(Names(all), n) == k;
    }
  }

  /** The merge keeps names distinct and never touches netuids. */
  lemma {:induction false} MergeExtrasKeeps(ns: seq<Field>, extras: seq<Field>)
    requires NoDup(Names(ns))
    ensures NoDup(Names(MergeExtras(ns, extras)))
    ensures Lookup(MergeExtras(ns, extras), "netuids") == Lookup(ns, "netuids")
  {
    if extras != [] {
      var m := MergeExtras(ns, extras[..|extras| - 1]);
      var f := extras[|extras| - 1];
      MergeExtrasKeeps(ns, extras[..|extras| - 1]);
      if Overrides(f) {
        SetAttrNoDup(m, f.name, f.value);
        SetAttrLookup(m, f.name, f.value, "netuids");
      }
    }
  }

  /**
   * After the merge an attribute holds the override's value when the overrides carry one
   * that replaces it, and its old value (or stays absent) otherwise.
   */
  lemma {:induction false} MergeExtrasLookup(ns: seq<Field>, extras: seq<Field>, n: string)
    requires NoDup(Names(ns)) && NoDup(Names(extras))
    ensures Lookup(MergeExtras(ns, extras), n) ==
      if Lookup(extras, n).Some? && Overrides(Field(n, Lookup(extras, n).value)) then Lookup(extras, n)
      else Lookup(ns, n)
  {
    if extras != [] {
      var init := extras[..|extras| - 1];
      var f := extras[|extras| - 1];
      assert extras == init + [f];
      assert Names(init) == Names(extras)[..|init|];
      MergeExtrasLookup(ns, init, n);
      LookupSnoc(init, f, n);
      var m := MergeExtras(ns, init);
      MergeExtrasKeeps(ns, init);
      if Overrides(f) {
        SetAttrLookup(m, f.name, f.value, n);
      }
      if f.name == n {
        forall k | 0 <= k < |Names(init)|
          ensures Names(init)[k] != n
        {
          assert Names(init)[k] == Names(extras)[k];
        }
      }
    }
  }

  /** setattr twice on the same name: the second value wins, in the place of the first. */
  lemma SetAttrTwice(ns: seq<Field>, n: string, a: ArgValue, b: ArgValue)
    ensures SetAttr(SetAttr(ns, n, a), n, b) == SetAttr(ns, n, b)
  {
    var once := SetAttr(ns, n, a);
    if n !in Names(ns) {
      assert Names(once)[|ns|] == n;
      assert Names(once)[..|ns|] == Names(ns);
      assert IndexOf(Names(once), n) == |ns|;
    } else {
      assert Names(once) == Names(ns);
    }
  }

  /**
   * _update_process_args as a function of the namespace: netuids (absent counting as
   * empty) edited and written back, then the overrides merged in.
   */
  function UpdatedArgs(ns: seq<Field>, add: seq<int>, remove: seq<int>, extras: seq<Field>): seq<Field>
  {
    MergeExtras(SetAttr(ns, "netuids", IntList(EditedNetuids(NetuidsOf(ns), add, remove))), extras)
  }

  /**
   * The updated namespace is well formed; its netuids are the edited ones, always present;
   * every other attribute holds the override's value when that replaces it and its old
   * value otherwise.
   */
  lemma UpdatedArgsCorrect(ns: seq<Field>, add: seq<int>, remove: seq<int>, extras: seq<Field>, n: string)
    requires WellFormed(ns) && NoDup(Names(extras))
    ensures var r := UpdatedArgs(ns, add, remove, extras);
      WellFormed(r)
      && Lookup(r, "netuids") == Some(IntList(EditedNetuids(NetuidsOf(ns), add, remove)))
      && (n != "netuids" ==>
            Lookup(r, n) == if Lookup(extras, n).Some? && Overrides(Field(n, Lookup(extras, n).value))
                            then Lookup(extras, n) else Lookup(ns, n))
  {
    var edited := IntList(EditedNetuids(NetuidsOf(ns), add, remove));
    var base := SetAttr(ns, "netuids", edited);
    SetAttrNoDup(ns, "netuids", edited);
    SetAttrLookup(ns, "netuids", edited, n);
    MergeExtrasKeeps(base, extras);
    MergeExtrasLookup(base, extras, n);
  }

  // ---------------------------------------------------------------- argv

  /** An argument name as an option: every '_' becomes '-'. */
  function Dashed(name: string): (r: string)
    ensures |r| == |name| && '_' !in r
  {
    var r := seq(|name|, i requires 0 <= i < |name| => if name[i] == '_' then '-' else name[i]);
    assert forall i :: 0 <= i < |r| ==> r[i] != '_';
    r
  }

  predicate IsDigits(s: string)
  {
    forall i :: 0 <= i < |s| ==> '0' <= s[i] <= '9'
  }

  /** The decimal digits of a natural number, most significant first. */
  function NatToString(n: nat): (r: string)
    ensures r != [] && IsDigits(r)
  {
    if n < 10 then ["0123456789"[n]]
    else NatToString(n / 10) + ["0123456789"[n % 10]]
  }

  /** str() of an int. */
  function IntToString(i: int): string
  {
    if i < 0 then "-" + NatToString(-i) else NatToString(i)
  }

  /** The value of a string of decimal digits. */
  function ParseNat(s: string): nat
    requires IsDigits(s)
  {
    if s == [] then 0
    else
      assert '0' <= s[|s| - 1] <= '9';
      ParseNat(s[..|s| - 1]) * 10 + (s[|s| - 1] as int - '0' as int)
  }

  /** int() of a decimal string with an optional minus sign. */
  function ParseInt(s: string): int
    requires s != [] && IsDigits(if s[0] == '-' then s[1..] else s)
  {
    if s[0] == '-' then -(ParseNat(s[1..]) as int) else ParseNat(s)
  }

  lemma {:induction false} NatToStringRoundTrip(n: nat)
    ensures ParseNat(NatToString(n)) == n
  {
    if n >= 10 {
      NatToStringRoundTrip(n / 10);
      var r := NatToString(n);
      assert r[..|r| - 1] == NatToString(n / 10);
    }
  }

  /** int() accepts the word and yields x. */
  predicate ReadsBackAs(w: string, x: int)
  {
    w != [] && IsDigits(if w[0] == '-' then w[1..] else w) && ParseInt(w) == x
  }

  /** str() and int() are inverse on ints: an argv netuid reads back as itself. */
  lemma IntToStringRoundTrip(i: int)
    ensures ReadsBackAs(IntToString(i), i)
  {
    var t := IntToString(i);
    if i < 0 {
      NatToStringRoundTrip(-i);
      assert t[0] == '-' && t[1..] == NatToString(-i);
    } else {
      NatToStringRoundTrip(i);
      assert '0' <= t[0] <= '9';
    }
  }

  /** The words a value contributes: each list element, or the single value, as str(). */
  function ValueArgs(v: ArgValue): seq<string>
  {
    match v
    case NoneValue => []
    case Flag(b) => [if b then "True" else "False"]
    case Text(t) => [t]
    case IntList(items) => seq(|items|, k requires 0 <= k < |items| => IntToString(items[k]))
  }

  /**
   * The words one field contributes: nothing for None; for discord_notify only
   * --skip-discord-notify, when it is False; otherwise the option then the value's words.
   */
  function FieldArgs(f: Field): seq<string>
  {
    if f.value.NoneValue? then []
    else if f.name == "discord_notify" then (if f.value == Flag(false) then ["--skip-discord-notify"] else [])
    else ["--" + Dashed(f.name)] + ValueArgs(f.value)
  }

  /** The words of every field, in namespace order. */
  function ArgvOf(fields: seq<Field>): seq<string>
  {
    if fields == [] then [] else ArgvOf(fields[..|fields| - 1]) + FieldArgs(fields[|fields| - 1])
  }

  function StartPrefix(script: string): seq<string>
  {
    ["pm2", "start", "--interpreter", "python3", script, "--"]
  }

  /** The pm2 start command for a namespace. */
  function StartCommand(script: string, fields: seq<Field>): seq<string>
  {
    StartPrefix(script) + ArgvOf(fields)
  }

  /** Fields are flattened one after another. */
  lemma {:induction false} ArgvOfConcat(a: seq<Field>, b: seq<Field>)
    ensures ArgvOf(a + b) == ArgvOf(a) + ArgvOf(b)
  {
    if b != [] {
      var init := b[..|b| - 1];
      assert (a + b)[..|a + b| - 1] == a + init;
      assert (a + b)[|a + b| - 1] == b[|b| - 1];
      ArgvOfConcat(a, init);
    } else {
      assert a + b == a;
    }
  }

  lemma NetuidsFieldArgs(netuids: seq<int>)
    ensures FieldArgs(Field("netuids", IntList(netuids))) == ["--netuids"] + ValueArgs(IntList(netuids))
  {
    var d := Dashed("netuids");
    assert d == "netuids" by {
      assert forall i :: 0 <= i < |d| ==> d[i] == "netuids"[i];
    }
    assert "--" + d == "--netuids";
  }

  /**
   * With netuids as the first attribute, the start command is the fixed prefix, then
   * --netuids and each netuid's str(), which int() reads back as that netuid.
   */
  lemma StartCommandNetuids(script: string, netuids: seq<int>, rest: seq<Field>)
    ensures var cmd := StartCommand(script, [Field("netuids", IntList(netuids))] + rest);
      |cmd| >= 7 + |netuids|
      && cmd[..6] == StartPrefix(script)
      && cmd[6] == "--netuids"
      && forall k :: 0 <= k < |netuids| ==> ReadsBackAs(cmd[7 + k], netuids[k])
  {
    var words := ValueArgs(IntList(netuids));
    var pre := StartPrefix(script) + ["--netuids"];
    NetuidsHeadArgs(netuids, rest);
    var cmd := StartCommand(script, [Field("netuids", IntList(netuids))] + rest);
    assert cmd == pre + words + ArgvOf(rest);
    assert cmd[..6] == StartPrefix(script);
    forall k | 0 <= k < |netuids|
      ensures ReadsBackAs(cmd[7 + k], netuids[k])
    {
      ConcatIndex(pre, words, ArgvOf(rest), k);
      IntToStringRoundTrip(netuids[k]);
    }
  }

  lemma ConcatIndex<T>(a: seq<T>, b: seq<T>, c: seq<T>, i: nat)
    requires i < |b|
    ensures (a + b + c)[|a| + i] == b[i]
  {
  }

  lemma NetuidsHeadArgs(netuids: seq<int>, rest: seq<Field>)
    ensures ArgvOf([Field("netuids", IntList(netuids))] + rest)
            == ["--netuids"] + ValueArgs(IntList(netuids)) + ArgvOf(rest)
  {
    var head := Field("netuids", IntList(netuids));
    ArgvOfConcat([head], rest);
    assert ArgvOf([head]) == ArgvOf([]) + FieldArgs(head);
    NetuidsFieldArgs(netuids);
  }

  /** One more field appends its words. */
  lemma ArgvOfPrefix(fields: seq<Field>, k: nat)
    requires k < |fields|
    ensures ArgvOf(fields[..k + 1]) == ArgvOf(fields[..k]) + FieldArgs(fields[k])
  {
    assert fields[..k + 1][..k] == fields[..k];
  }

  /**
   * A None field and discord_notify = True contribute nothing; discord_notify = False
   * contributes the skip flag alone.
   */
  lemma SilentFields(fields: seq<Field>, f: Field)
    requires f.value.NoneValue? || f == Field("discord_notify", Flag(true))
    ensures ArgvOf(fields + [f]) == ArgvOf(fields)
    ensures ArgvOf(fields + [Field("discord_notify", Flag(false))]) == ArgvOf(fields) + ["--skip-discord-notify"]
  {
    assert (fields + [f])[..|fields|] == fields;
    assert (fields + [Field("discord_notify", Flag(false))])[..|fields|] == fields;
  }

  // ---------------------------------------------------------------- pm2 process list

  /** One entry of `pm2 jlist`: its name, script path and, when it has any, its parsed args. */
  datatype Pm2Entry = Pm2Entry(name: string, execPath: string, args: Option<seq<Field>>)

  /** os.path.basename: the text after the last '/'. */
  function Basename(path: string): (r: string)
    ensures '/' !in r && |r| <= |path| && path[|path| - |r|..] == r
    ensures |r| == |path| || path[|path| - |r| - 1] == '/'
  {
    if path == [] || path[|path| - 1] == '/' then []
    else
      var r := Basename(path[..|path| - 1]);
      assert path[|path| - |r| - 1..] == path[..|path| - 1][|path| - 1 - |r|..] + [path[|path| - 1]];
      r + [path[|path| - 1]]
  }

  /** name is the last component of path: a suffix preceded by '/' or by nothing. */
  predicate HasBasename(path: string, name: string)
  {
    |name| <= |path| && path[|path| - |name|..] == name
    && (|name| == |path| || path[|path| - |name| - 1] == '/')
  }

  /** For a name without '/', the basename test is the suffix test. */
  lemma BasenameIff(path: string, name: string)
    requires '/' !in name
    ensures Basename(path) == name <==> HasBasename(path, name)
  {
    var r := Basename(path);
    if HasBasename(path, name) {
      assert forall i :: |path| - |r| <= i < |path| ==> path[i] == r[i - (|path| - |r|)];
      assert forall i :: |path| - |name| <= i < |path| ==> path[i] == name[i - (|path| - |name|)];
      assert |r| <= |name| by {
        if |name| < |path| {
          assert path[|path| - |name| - 1] == '/';
        }
      }
      assert |name| <= |r| by {
        if |r| < |path| {
          assert path[|path| - |r| - 1] == '/';
        }
      }
    }
  }

  lemma ScriptNameHasNoSlash()
    ensures '/' !in SCRIPT_NAME
  {
    assert forall i :: 0 <= i < |SCRIPT_NAME| ==> SCRIPT_NAME[i] != '/';
  }

  /** The process runs the ensure_set_weights script (os.path.basename of its path). */
  predicate IsStarterProcess(e: Pm2Entry)
  {
    HasBasename(e.execPath, SCRIPT_NAME)
  }

  /** The position of the first ensure_set_weights process, if any. */
  function FirstMatch(ps: seq<Pm2Entry>): (r: Option<nat>)
    ensures r.Some? ==> r.value < |ps| && IsStarterProcess(ps[r.value])
                        && forall j :: 0 <= j < r.value ==> !IsStarterProcess(ps[j])
    ensures r.None? ==> forall j :: 0 <= j < |ps| ==> !IsStarterProcess(ps[j])
  {
    if ps == [] then None
    else if IsStarterProcess(ps[0]) then Some(0)
    else match FirstMatch(ps[1..])
      case None => None
      case Some(k) => Some(k + 1)
  }

  lemma FirstMatchAt(ps: seq<Pm2Entry>, i: nat)
    requires i < |ps| && IsStarterProcess(ps[i])
    requires forall j :: 0 <= j < i ==> !IsStarterProcess(ps[j])
    ensures FirstMatch(ps) == Some(i)
  {
    var r := FirstMatch(ps);
    assert r.Some? by {
      assert IsStarterProcess(ps[i]);
    }
  }

  /** The commands _restart_process runs: the delete, if any, then the start, if any. */
  datatype RestartCommands = RestartCommands(delete: Option<seq<string>>, start: Option<seq<string>>)

  class EnsureSetWeightsStarter {
    const addNetuids: seq<int>
    const removeNetuids: seq<int>
    /** The overrides, parsed from the extra command-line words. */
    const extraArgs: seq<Field>
    const scriptPath: string
    var processArgs: seq<Field>
    var existingProcess: Option<string>

    predicate Valid()
      reads this
    {
      WellFormed(processArgs) && NoDup(Names(extraArgs))
    }

    /** A fresh starter: an empty namespace and no existing process yet. */
    constructor(add: seq<int>, remove: seq<int>, extras: seq<Field>, script: string)
      requires NoDup(Names(extras))
      ensures Valid()
      ensures addNetuids == add && removeNetuids == remove && extraArgs == extras && scriptPath == script
      ensures processArgs == [] && existingProcess == None
    {
      addNetuids := add;
      removeNetuids := remove;
      extraArgs := extras;
      scriptPath := script;
      processArgs := [];
      existingProcess := None;
    }

    /**
     * _find_existing_process: the first process running the ensure_set_weights script
     * becomes the existing process, and its args, when it has any, the namespace; without
     * such a process nothing changes.
     */
    method FindExistingProcess(processes: seq<Pm2Entry>)
      requires Valid()
      requires forall k :: 0 <= k < |processes| && processes[k].args.Some? ==> WellFormed(processes[k].args.value)
      modifies this
      ensures Valid()
      ensures FirstMatch(processes).None? ==>
        processArgs == old(processArgs) && existingProcess == old(existingProcess)
      ensures FirstMatch(processes).Some? ==>
        var e := processes[FirstMatch(processes).value];
        existingProcess == Some(e.name)
        && processArgs == if e.args.Some? then e.args.value else old(processArgs)
    {
      var i := 0;
      while i < |processes|
        invariant 0 <= i <= |processes|
        invariant forall j :: 0 <= j < i ==> !IsStarterProcess(processes[j])
        invariant processArgs == old(processArgs) && existingProcess == old(existingProcess)
      {
        var e := processes[i];
        var runs := RunsStarter(e);
        if !runs {
          i := i + 1;
          continue;
        }
        FirstMatchAt(processes, i);
        existingProcess := Some(e.name);
        if e.args.Some? {
          processArgs := e.args.value;
        }
        return;
      }
    }

    /** The loop's test: the basename of the process's script is ensure_set_weights. */
    static method RunsStarter(e: Pm2Entry) returns (b: bool)
      ensures b == IsStarterProcess(e)
    {
      ScriptNameHasNoSlash();
      BasenameIff(e.execPath, SCRIPT_NAME);
      b := Basename(e.execPath) == SCRIPT_NAME;
    }

    /**
     * _update_process_args: netuids (created empty when absent) gets the --add netuids not
     * yet present, loses one occurrence of each --remove netuid present, and is sorted;
     * then the overriding fields are set.
     */
    method UpdateProcessArgs()
      requires Valid()
      modifies this
      ensures Valid()
      ensures processArgs == UpdatedArgs(old(processArgs), addNetuids, removeNetuids, extraArgs)
      ensures existingProcess == old(existingProcess)
    {
      ghost var ns0 := processArgs;
      if Lookup(processArgs, "netuids").None? {
        processArgs := SetAttr(processArgs, "netuids", IntList([]));
        SetAttrLookup(ns0, "netuids", IntList([]), "netuids");
      }
      var netuids := NetuidsOf(processArgs);
      assert netuids == NetuidsOf(ns0);
      for k := 0 to |addNetuids|
        invariant netuids == AddNetuids(NetuidsOf(ns0), addNetuids[..k])
      {
        assert addNetuids[..k + 1][..k] == addNetuids[..k];
        var netuid := addNetuids[k];
        if netuid !in netuids {
          netuids := netuids + [netuid];
        }
      }
      assert addNetuids[..|addNetuids|] == addNetuids;
      ghost var added := netuids;
      for k := 0 to |removeNetuids|
        invariant netuids == RemoveNetuids(added, removeNetuids[..k])
      {
        assert removeNetuids[..k + 1][..k] == removeNetuids[..k];
        var netuid := removeNetuids[k];
        if netuid in netuids {
          netuids := RemoveFirst(netuids, netuid);
        }
      }
      assert removeNetuids[..|removeNetuids|] == removeNetuids;
      netuids := SortInts(netuids);
      SetAttrTwice(ns0, "netuids", IntList([]), IntList(netuids));
      processArgs := SetAttr(processArgs, "netuids", IntList(netuids));
      ghost var base := processArgs;
      for k := 0 to |extraArgs|
        invariant processArgs == MergeExtras(base, extraArgs[..k])
        invariant existingProcess == old(existingProcess)
      {
        assert extraArgs[..k + 1][..k] == extraArgs[..k];
        var field := extraArgs[k];
        if field.name == "discord_notify" {
          if field.value == Flag(false) {
            processArgs := SetAttr(processArgs, field.name, field.value);
          }
          continue;
        }
        if field.name != "netuids" && field.value != NoneValue {
          processArgs := SetAttr(processArgs, field.name, field.value);
        }
      }
      assert extraArgs[..|extraArgs|] == extraArgs;
      UpdatedArgsCorrect(ns0, addNetuids, removeNetuids, extraArgs, "netuids");
    }

    /** The argv loop: the prefix, then each field's words in namespace order. */
    static method BuildStartCommand(script: string, fields: seq<Field>) returns (cmd: seq<string>)
      ensures cmd == StartCommand(script, fields)
    {
      var argv: seq<string> := [];
      for k := 0 to |fields|
        invariant argv == ArgvOf(fields[..k])
      {
        var words := FieldWords(fields[k]);
        ArgvOfPrefix(fields, k);
        argv := argv + words;
      }
      assert fields[..|fields|] == fields;
      cmd := StartPrefix(script) + argv;
    }

    /** The words one field adds to the start command. */
    static method FieldWords(field: Field) returns (words: seq<string>)
      ensures words == FieldArgs(field)
    {
      words := [];
      if field.value.NoneValue? {
        return;
      }
      if field.name == "discord_notify" {
        if field.value == Flag(false) {
          words := ["--skip-discord-notify"];
        }
        return;
      }
      words := ["--" + Dashed(field.name)];
      match field.value
      case IntList(items) =>
        words := words + seq(|items|, i requires 0 <= i < |items| => IntToString(items[i]));
      case Flag(b) =>
        words := words + [if b then "True" else "False"];
      case Text(t) =>
        words := words + [t];
    }

    /**
     * The decisions of _restart_process: an existing process (a non-empty name) is deleted
     * first and a failed delete ends it; with no netuids nothing is started; otherwise the
     * start command for the namespace is run.
     */
    method RestartProcess(deleteSucceeds: bool) returns (r: RestartCommands)
      requires Valid()
      ensures var existing := existingProcess.Some? && existingProcess.value != "";
        r.delete == (if existing then Some(["pm2", "delete", existingProcess.value]) else None)
        && (r.start.Some? <==> (!existing || deleteSucceeds) && NetuidsOf(processArgs) != [])
        && (r.start.Some? ==> r.start.value == StartCommand(scriptPath, processArgs))
    {
      var delete: Option<seq<string>> := None;
      if existingProcess.Some? && existingProcess.value != "" {
        delete := Some(["pm2", "delete", existingProcess.value]);
        if !deleteSucceeds {
          return RestartCommands(delete, None);
        }
      }
      if NetuidsOf(processArgs) == [] {
        return RestartCommands(delete, None);
      }
      var cmd := BuildStartCommand(scriptPath, processArgs);
      return RestartCommands(delete, Some(cmd));
    }
  }
}
