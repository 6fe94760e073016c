/**
  An abstract model of the control library's `SetOfSettings`: an ordered list
  of named, typed settings. Only the behaviour this app relies on is modelled:
  registration (`add`), upsert (`addByReplace`), typed reads (`boolFor`,
  `textFor`), a typed write (`set`) and selection by titles (`settingsWith`).
  Subscription and notification live in the library and are not modelled.
*/
module SettingsStore {
  import opened Wrappers

  datatype Value = BoolValue(b: bool) | TextValue(text: string)

  datatype Kind = BoolKind | TextKind

  function KindOf(v: Value): Kind
  {
    match v
    case BoolValue(_) => BoolKind
    case TextValue(_) => TextKind
  }

  datatype Setting = Setting(title: string, value: Value)

  type Store = seq<Setting>

  datatype StoreError = DuplicateTitle(title: string) | UnknownTitle(title: string) | KindMismatch(title: string)

  function Titles(s: Store): (r: seq<string>)
    ensures |r| == |s|
    ensures forall i :: 0 <= i < |s| ==> r[i] == s[i].title
  {
    seq(|s|, i requires 0 <= i < |s| => s[i].title)
  }

  function Kinds(s: Store): (r: seq<Kind>)
    ensures |r| == |s|
    ensures forall i :: 0 <= i < |s| ==> r[i] == KindOf(s[i].value)
  {
    seq(|s|, i requires 0 <= i < |s| => KindOf(s[i].value))
  }

  predicate UniqueTitles(s: Store)
  {
    forall i, j :: 0 <= i < j < |s| ==> s[i].title != s[j].title
  }

  predicate HasTitle(s: Store, t: string)
  {
    exists i :: 0 <= i < |s| && s[i].title == t
  }

  /** Position of the first setting titled `t`. */
  function IndexOf(s: Store, t: string): (r: Option<nat>)
    ensures r.None? <==> !HasTitle(s, t)
    ensures r.Some? ==> r.value < |s| && s[r.value].title == t
  {
    if |s| == 0 then None
    else if s[0].title == t then Some(0)
    else
      match IndexOf(s[1..], t)
      case None =>
        assert forall i :: 1 <= i < |s| ==> s[i] == s[1..][i - 1];
        None
      case Some(i) => Some(i + 1)
  }

  /** No setting before the one found carries its title. */
  lemma {:induction false} IndexOfFirst(s: Store, t: string)
    ensures IndexOf(s, t).Some? ==> forall j :: 0 <= j < IndexOf(s, t).value ==> s[j].title != t
  {
    if |s| > 0 && s[0].title != t {
      IndexOfFirst(s[1..], t);
      assert forall j :: 1 <= j < |s| ==> s[j] == s[1..][j - 1];
    }
  }

  /** Registration: a title registered twice is a fatal configuration error. */
  function Add(s: Store, x: Setting): (r: Result<Store, StoreError>)
    ensures r.Ok? <==> !HasTitle(s, x.title)
    ensures r.Ok? ==> r.value == s + [x]
    ensures r.Err? ==> r.error == DuplicateTitle(x.title)
  {
    if HasTitle(s, x.title) then Err(DuplicateTitle(x.title)) else Ok(s + [x])
  }

  /** Upsert: replaces an existing title in place, otherwise appends. */
  function AddByReplace(s: Store, x: Setting): (r: Store)
    ensures HasTitle(s, x.title) ==> |r| == |s| && r[IndexOf(s, x.title).value] == x
    ensures HasTitle(s, x.title) ==>
      forall j :: 0 <= j < |s| && j != IndexOf(s, x.title).value ==> r[j] == s[j]
    ensures !HasTitle(s, x.title) ==> r == s + [x]
  {
    match IndexOf(s, x.title)
    case Some(i) => s[i := x]
    case None => s + [x]
  }

  /** Registers every setting of `xs` in order, stopping at the first duplicate. */
  function RegisterAll(s: Store, xs: seq<Setting>): Result<Store, StoreError>
    decreases |xs|
  {
    if xs == [] then Ok(s)
    else
      var s' :- Add(s, xs[0]);
      RegisterAll(s', xs[1..])
  }

  /** Registration succeeds exactly when no title is registered twice. */
  lemma {:induction false} RegisterAllUnique(s: Store, xs: seq<Setting>)
    requires UniqueTitles(s)
    ensures RegisterAll(s, xs).Ok? <==> UniqueTitles(s + xs)
    ensures RegisterAll(s, xs).Ok? ==> RegisterAll(s, xs).value == s + xs
    decreases |xs|
  {
    if xs == [] {
      assert s + xs == s;
    } else {
      var x := xs[0];
      assert (s + [x]) + xs[1..] == s + xs;
      if HasTitle(s, x.title) {
        var i :| 0 <= i < |s| && s[i].title == x.title;
        assert (s + xs)[i].title == (s + xs)[|s|].title;
      } else {
        assert UniqueTitles(s + [x]);
        RegisterAllUnique(s + [x], xs[1..]);
      }
    }
  }

  function Find(s: Store, t: string): (r: Option<Value>)
    ensures r.Some? <==> HasTitle(s, t)
    ensures r.Some? ==> r.value == s[IndexOf(s, t).value].value
  {
    match IndexOf(s, t)
    case Some(i) => Some(s[i].value)
    case None => None
  }

  /** A missing or non-Boolean setting reads as `false`. */
  function BoolFor(s: Store, t: string): (r: bool)
    ensures r <==> Find(s, t) == Some(BoolValue(true))
  {
    match Find(s, t)
    case Some(BoolValue(b)) => b
    case _ => false
  }

  /** A missing or non-text setting reads as nothing. */
  function TextFor(s: Store, t: string): (r: Option<string>)
    ensures r.Some? <==> Find(s, t).Some? && Find(s, t).value.TextValue?
    ensures r.Some? ==> Find(s, t) == Some(TextValue(r.value))
  {
    match Find(s, t)
    case Some(TextValue(x)) => Some(x)
    case _ => None
  }

  /** Typed write: an unknown title or a value of the wrong kind is fatal. */
  function Set(s: Store, t: string, v: Value): (r: Result<Store, StoreError>)
    ensures !HasTitle(s, t) ==> r == Err(UnknownTitle(t))
    ensures HasTitle(s, t) && KindOf(s[IndexOf(s, t).value].value) != KindOf(v) ==> r == Err(KindMismatch(t))
    ensures r.Ok? ==> |r.value| == |s| && Titles(r.value) == Titles(s) && Kinds(r.value) == Kinds(s)
    ensures r.Ok? ==> r.value[IndexOf(s, t).value].value == v
    ensures r.Ok? ==> forall j :: 0 <= j < |s| && j != IndexOf(s, t).value ==> r.value[j] == s[j]
  {
    match IndexOf(s, t)
    case None => Err(UnknownTitle(t))
    case Some(i) =>
      if KindOf(s[i].value) != KindOf(v) then Err(KindMismatch(t))
      else Ok(s[i := Setting(t, v)])
  }

  /** Reading back a title just written gives the written value. */
  lemma SetThenFind(s: Store, t: string, v: Value, u: string)
    requires Set(s, t, v).Ok?
    ensures Find(Set(s, t, v).value, t) == Some(v)
    ensures u != t ==> Find(Set(s, t, v).value, u) == Find(s, u)
  {
    var r := Set(s, t, v).value;
    var i := IndexOf(s, t).value;
    assert Titles(r) == Titles(s);
    assert forall j :: 0 <= j < |s| ==> r[j].title == s[j].title by {
      forall j | 0 <= j < |s| ensures r[j].title == s[j].title {
        assert Titles(r)[j] == Titles(s)[j];
      }
    }
    assert IndexOf(r, t) == Some(i) by {
      IndexOfFirst(s, t);
      IndexOfFirst(r, t);
      var k := IndexOf(r, t).value;
      assert !(k < i) && !(i < k);
    }
    if u != t && HasTitle(s, u) {
      IndexOfFirst(s, u);
      IndexOfFirst(r, u);
      var k := IndexOf(s, u).value;
      var k' := IndexOf(r, u).value;
      assert !(k < k') && !(k' < k);
    }
  }

  /** The settings with the given titles, in the order of `titles`; unknown titles are skipped. */
  function SettingsWith(s: Store, titles: seq<string>): (r: seq<Setting>)
    ensures |r| <= |titles|
    ensures (forall k :: 0 <= k < |titles| ==> HasTitle(s, titles[k])) ==> |r| == |titles|
    ensures forall x :: x in r ==> x in s
  {
    if titles == [] then []
    else
      var rest := SettingsWith(s, titles[1..]);
      assert forall k :: 1 <= k < |titles| ==> titles[k] == titles[1..][k - 1];
      match IndexOf(s, titles[0])
      case Some(i) => [s[i]] + rest
      case None => rest
  }

  /** When every title is known, entry `k` of the selection is the setting titled `titles[k]`. */
  lemma {:induction false} SettingsWithSelects(s: Store, titles: seq<string>)
    requires forall k :: 0 <= k < |titles| ==> IndexOf(s, titles[k]).Some?
    ensures |SettingsWith(s, titles)| == |titles|
    ensures forall k :: 0 <= k < |titles| ==>
      SettingsWith(s, titles)[k] == s[IndexOf(s, titles[k]).value]
  {
    if titles != [] {
      var rest := titles[1..];
      assert forall k :: 0 <= k < |rest| ==> rest[k] == titles[k + 1];
      SettingsWithSelects(s, rest);
    }
  }
}
