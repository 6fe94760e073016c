/**
  The app's own settings (`SetOfSettingsNova`): one Boolean choosing the
  nine-sentence home screen and nine sentence texts, registered in a fixed
  order with fixed defaults, and a deep copy that builds a new store and
  upserts every setting of the source into it.
*/
module NovaSettings {
  import opened Wrappers
  import opened SettingsStore
  import opened Localization
  import Text

  /**
    The title of sentence `k`: the localised word, a space and the digit,
    written as its character code here (see `SentenceTitleEndsWithDigit`).
  */
  function SentenceTitle(loc: Strings, k: int): (r: string)
    requires 1 <= k <= 9
    ensures |r| == |loc.sentence| + 2 && r[..|loc.sentence|] == loc.sentence
    ensures r[|loc.sentence|] == ' ' && r[|loc.sentence| + 1] as int == '0' as int + k
  {
    loc.sentence + [' ', ('0' as int + k) as char]
  }

  /** A sentence title ends with a space and the decimal digit of its number. */
  lemma SentenceTitleEndsWithDigit(loc: Strings, k: int)
    requires 1 <= k <= 9
    ensures var r := SentenceTitle(loc, k);
      r[|loc.sentence|] == ' ' && r[|loc.sentence| + 1] == Text.DigitChar(k)
      && Text.IsDigit(r[|loc.sentence| + 1]) && Text.DigitValue(r[|loc.sentence| + 1]) == k
  {
  }

  /** The nine sentence titles differ only in their digit, so they are distinct. */
  lemma SentenceTitlesDistinct(loc: Strings, j: int, k: int)
    requires 1 <= j <= 9 && 1 <= k <= 9 && j != k
    ensures SentenceTitle(loc, j) != SentenceTitle(loc, k)
  {
    SentenceTitleEndsWithDigit(loc, j);
    SentenceTitleEndsWithDigit(loc, k);
  }

  /** The Boolean's localised title is not also a sentence title. */
  predicate TitlesDistinct(loc: Strings)
  {
    forall k :: 1 <= k <= 9 ==> loc.use9SentencesTitle != SentenceTitle(loc, k)
  }

  function Use9Sentences(loc: Strings): Setting
  {
    Setting(loc.use9SentencesTitle, BoolValue(false))
  }

  function DefaultSentence(loc: Strings, k: int): string
    requires 1 <= k <= 9
  {
    if k == 1 then loc.defaultSentence1
    else if k == 2 then loc.defaultSentence2
    else if k == 3 then loc.defaultSentence3
    else ""
  }

  /** The ten registrations of the initialiser, in registration order. */
  function Registrations(loc: Strings): (r: seq<Setting>)
    ensures |r| == 10
  {
    [Use9Sentences(loc)]
      + seq(9, i requires 0 <= i < 9 => Setting(SentenceTitle(loc, i + 1), TextValue(DefaultSentence(loc, i + 1))))
  }

  function NovaTitles(loc: Strings): seq<string>
  {
    Titles(Registrations(loc))
  }

  function NovaKinds(): seq<Kind>
  {
    [BoolKind] + seq(9, _ => TextKind)
  }

  /** The shape every app store keeps: the ten titles and kinds, in order. */
  predicate WellShaped(loc: Strings, s: Store)
  {
    Titles(s) == NovaTitles(loc) && Kinds(s) == NovaKinds()
  }

  /** Building the store registers exactly the ten settings, in order, with their defaults. */
  function Init(loc: Strings): (r: Result<Store, StoreError>)
    ensures r.Ok? <==> TitlesDistinct(loc)
    ensures r.Ok? ==> |r.value| == 10
    ensures r.Ok? ==> r.value[0] == Setting(loc.use9SentencesTitle, BoolValue(false))
    ensures r.Ok? ==> forall k :: 1 <= k <= 9 ==>
      r.value[k].title == SentenceTitle(loc, k) && r.value[k].value == TextValue(DefaultSentence(loc, k))
    ensures r.Ok? ==> forall k :: 4 <= k <= 9 ==> r.value[k].value == TextValue("")
    ensures r.Ok? ==> WellShaped(loc, r.value)
  {
    RegisterRegistrations(loc);
    RegisterAll([], Registrations(loc))
  }

  /** Registering the ten settings into an empty store yields them, in order, exactly when their titles differ. */
  lemma RegisterRegistrations(loc: Strings)
    ensures RegisterAll([], Registrations(loc)).Ok? <==> TitlesDistinct(loc)
    ensures RegisterAll([], Registrations(loc)).Ok? ==> RegisterAll([], Registrations(loc)).value == Registrations(loc)
    ensures Registrations(loc)[0] == Setting(loc.use9SentencesTitle, BoolValue(false))
    ensures forall k :: 1 <= k <= 9 ==>
      Registrations(loc)[k].title == SentenceTitle(loc, k) && Registrations(loc)[k].value == TextValue(DefaultSentence(loc, k))
    ensures WellShaped(loc, Registrations(loc))
  {
    RegistrationsShape(loc);
    RegistrationsUnique(loc);
    RegisterAllUnique([], Registrations(loc));
    assert [] + Registrations(loc) == Registrations(loc);
  }

  lemma RegistrationsShape(loc: Strings)
    ensures Registrations(loc)[0] == Setting(loc.use9SentencesTitle, BoolValue(false))
    ensures forall k :: 1 <= k <= 9 ==>
      Registrations(loc)[k] == Setting(SentenceTitle(loc, k), TextValue(DefaultSentence(loc, k)))
    ensures Kinds(Registrations(loc)) == NovaKinds()
  {
    var r := Registrations(loc);
    assert forall k :: 1 <= k <= 9 ==> r[k] == Setting(SentenceTitle(loc, k), TextValue(DefaultSentence(loc, k)));
    assert forall k :: 0 <= k < 10 ==> Kinds(r)[k] == NovaKinds()[k];
  }

  lemma RegistrationsUnique(loc: Strings)
    ensures UniqueTitles(Registrations(loc)) <==> TitlesDistinct(loc)
  {
    var r := Registrations(loc);
    if TitlesDistinct(loc) {
      forall i, j | 0 <= i < j < 10 ensures r[i].title != r[j].title {
        if i == 0 {
          assert r[j].title == SentenceTitle(loc, j);
        } else {
          SentenceTitlesDistinct(loc, i, j);
        }
      }
    } else {
      var k :| 1 <= k <= 9 && loc.use9SentencesTitle == SentenceTitle(loc, k);
      assert r[0].title == r[k].title;
    }
  }

  /** Upserts every setting of `src`, in order, into `dst`. */
  function ReplaceAll(dst: Store, src: seq<Setting>): Store
    decreases |src|
  {
    if src == [] then dst else ReplaceAll(AddByReplace(dst, src[0]), src[1..])
  }

  /** `copy(with:)`: a freshly built store with every setting of `s` upserted into it. */
  function Copy(loc: Strings, s: Store): Result<Store, StoreError>
  {
    var built :- Init(loc);
    Ok(ReplaceAll(built, s))
  }

  /** With matching titles, every upsert lands on the setting at the same position. */
  lemma {:induction false} ReplaceAllAligned(acc: Store, s: Store, k: nat)
    requires Titles(acc) == Titles(s) && UniqueTitles(acc)
    requires k <= |s| && acc[..k] == s[..k]
    ensures ReplaceAll(acc, s[k..]) == s
    decreases |s| - k
  {
    if k == |s| {
      assert acc == acc[..k] && s == s[..k];
      assert s[k..] == [];
    } else {
      var acc' := AddByReplace(acc, s[k]);
      UpsertAligned(acc, s, k);
      assert acc'[..k + 1] == s[..k + 1];
      assert s[k..][1..] == s[k + 1..];
      ReplaceAllAligned(acc', s, k + 1);
    }
  }

  /** One upsert of an aligned setting replaces the entry at its own position and keeps the titles. */
  lemma UpsertAligned(acc: Store, s: Store, k: nat)
    requires Titles(acc) == Titles(s) && UniqueTitles(acc) && k < |s|
    ensures AddByReplace(acc, s[k]) == acc[k := s[k]]
    ensures Titles(acc[k := s[k]]) == Titles(s)
    ensures UniqueTitles(acc[k := s[k]])
  {
    var x := s[k];
    assert Titles(acc)[k] == x.title;
    assert acc[k].title == x.title;
    assert IndexOf(acc, x.title).value == k;
    var acc' := acc[k := x];
    assert Titles(acc') == Titles(s) by {
      forall j | 0 <= j < |s| ensures Titles(acc')[j] == Titles(s)[j] {
        assert Titles(acc)[j] == Titles(s)[j];
      }
    }
    forall a, b | 0 <= a < b < |acc'| ensures acc'[a].title != acc'[b].title {
      assert Titles(acc')[a] == Titles(acc)[a] && Titles(acc')[b] == Titles(acc)[b];
    }
  }

  /** A copy of any store of the app's shape equals it: same count, titles, kinds, values and order. */
  lemma CopyIsEqual(loc: Strings, s: Store)
    requires TitlesDistinct(loc) && WellShaped(loc, s)
    ensures Copy(loc, s) == Ok(s)
    ensures |Copy(loc, s).value| == 10
  {
    var built := Init(loc).value;
    RegistrationsUnique(loc);
    assert UniqueTitles(built) by {
      forall a, b | 0 <= a < b < |built| ensures built[a].title != built[b].title {
        assert Titles(built)[a] == Titles(Registrations(loc))[a];
        assert Titles(built)[b] == Titles(Registrations(loc))[b];
      }
    }
    assert s[0..] == s;
    ReplaceAllAligned(built, s, 0);
  }

  /** Upserting only titles the built store already has never grows it. */
  lemma {:induction false} ReplaceAllKeepsSize(dst: Store, src: seq<Setting>)
    requires forall x :: x in src ==> HasTitle(dst, x.title)
    ensures |ReplaceAll(dst, src)| == |dst|
    ensures Titles(ReplaceAll(dst, src)) == Titles(dst)
    decreases |src|
  {
    if src != [] {
      var d' := AddByReplace(dst, src[0]);
      assert Titles(d') == Titles(dst) by {
        forall j | 0 <= j < |dst| ensures Titles(d')[j] == Titles(dst)[j] {
        }
      }
      forall x | x in src[1..] ensures HasTitle(d', x.title) {
        var j :| 0 <= j < |dst| && dst[j].title == x.title;
        assert Titles(d')[j] == Titles(dst)[j];
      }
      ReplaceAllKeepsSize(d', src[1..]);
    }
  }

  /** Edits keep a store well shaped: `set` never adds, drops, renames or retypes a setting. */
  lemma SetKeepsShape(loc: Strings, s: Store, t: string, v: Value)
    requires WellShaped(loc, s) && Set(s, t, v).Ok?
    ensures WellShaped(loc, Set(s, t, v).value)
  {
  }
}
