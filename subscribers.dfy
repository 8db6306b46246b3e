/**
 * The subscribers table (user_id -> lng) and what each database function does
 * to it, as functions of the table. Storage.Store holds the table and its
 * methods are specified by these.
 */
module Subscribers {
  import opened Wrappers
  import Json
  import Text
  import Translations

  type Table = map<int, string>

  /**
   * get_user_language: the stored language when the row exists and its lng is
   * non-empty, otherwise DEFAULT_LANGUAGE. Never empty; anything other than
   * the default is the stored row.
   */
  function Language(t: Table, id: int): (lng: string)
    ensures lng != ""
    ensures id in t && t[id] != "" ==> lng == t[id]
    ensures lng != Translations.DefaultLanguage ==> id in t && lng == t[id]
  {
    if id in t && t[id] != "" then t[id] else Translations.DefaultLanguage
  }

  /**
   * get_or_create_user_language: read the row; if it is missing or its lng is
   * empty, INSERT (id, DEFAULT_LANGUAGE) ON CONFLICT DO NOTHING. Returns the
   * language and the new table.
   */
  function GetOrCreate(t: Table, id: int): (r: (string, Table))
    ensures r.0 == Language(t, id)
    ensures r.1.Keys == t.Keys + {id}
    ensures forall k :: k in t ==> r.1[k] == t[k]
    ensures id !in t ==> r.1[id] == Translations.DefaultLanguage
  {
    if id in t && t[id] != "" then (t[id], t)
    else if id in t then (Translations.DefaultLanguage, t)
    else (Translations.DefaultLanguage, t[id := Translations.DefaultLanguage])
  }

  /** Calling get_or_create_user_language twice gives the same answer and the same table. */
  lemma GetOrCreateIdempotent(t: Table, id: int)
    ensures GetOrCreate(GetOrCreate(t, id).1, id) == GetOrCreate(t, id)
  {
  }

  /**
   * set_user_language upserts: afterwards reading `id` gives the chosen
   * (non-empty) language, get_or_create neither overrides nor adds anything,
   * and every other user reads as before.
   */
  lemma {:induction false} SetLanguageThenRead(t: Table, id: int, lng: string)
    requires lng != ""
    ensures Language(t[id := lng], id) == lng
    ensures GetOrCreate(t[id := lng], id) == (lng, t[id := lng])
    ensures forall other :: other != id ==> Language(t[id := lng], other) == Language(t, other)
  {
  }

  // ---------------------------------------------------------------- legacy import

  /** The legacy subscribers.json as the loader finds it. */
  datatype IdSource = Missing | Corrupt | Entries(items: seq<Json.Value>)

  /** The entries int() accepts, converted, in file order. */
  function Convertible(items: seq<Json.Value>): (ids: seq<int>)
    ensures |ids| <= |items|
  {
    if items == [] then []
    else
      var prefix := Convertible(items[..|items| - 1]);
      match Json.ToInt(items[|items| - 1])
      case Some(n) => prefix + [n]
      case None => prefix
  }

  /** Every kept id comes from an entry int() accepts, and no such entry is lost. */
  lemma {:induction false} ConvertibleMembers(items: seq<Json.Value>)
    ensures forall x :: x in Convertible(items) ==>
              exists i :: 0 <= i < |items| && Json.ToInt(items[i]) == Some(x)
    ensures forall i :: 0 <= i < |items| && Json.ToInt(items[i]).Some? ==>
              Json.ToInt(items[i]).value in Convertible(items)
  {
    if items != [] {
      var init := items[..|items| - 1];
      ConvertibleMembers(init);
      assert forall i :: 0 <= i < |init| ==> items[i] == init[i];
    }
  }

  /** Filtering is piecewise: bad entries vanish and the order of the rest is kept. */
  lemma {:induction false} ConvertibleConcat(a: seq<Json.Value>, b: seq<Json.Value>)
    ensures Convertible(a + b) == Convertible(a) + Convertible(b)
    decreases |b|
  {
    if b != [] {
      var b' := b[..|b| - 1];
      assert (a + b)[..|a + b| - 1] == a + b';
      assert (a + b)[|a + b| - 1] == b[|b| - 1];
      ConvertibleConcat(a, b');
    } else {
      assert a + b == a;
    }
  }

  /** _load_legacy_subscribers */
  function LegacyIds(src: IdSource): (ids: seq<int>)
    ensures !src.Entries? ==> ids == []
  {
    match src
    case Entries(items) => Convertible(items)
    case _ => []
  }

  /**
   * executemany of INSERT (user_id) ... ON CONFLICT DO NOTHING, row by row in
   * list order: existing rows are untouched, every listed id ends up with a
   * row, and new rows get the column default lng.
   */
  function InsertIgnoring(t: Table, ids: seq<int>): (r: Table)
    ensures r.Keys == t.Keys + (set x | x in ids)
    ensures forall k :: k in t ==> r[k] == t[k]
    ensures forall k :: k in r && k !in t ==> r[k] == Translations.DefaultLanguage
  {
    if ids == [] then t
    else
      var prev := InsertIgnoring(t, ids[..|ids| - 1]);
      var id := ids[|ids| - 1];
      assert forall x :: x in ids ==> x in ids[..|ids| - 1] || x == id;
      if id in prev then prev else prev[id := Translations.DefaultLanguage]
  }

  /**
   * The subscriber half of ensure_database: import when there are legacy ids
   * and no rows. Stored rows are never changed.
   */
  function Bootstrap(t: Table, ids: seq<int>): (r: Table)
    ensures forall k :: k in t ==> k in r && r[k] == t[k]
    ensures r != t ==> t == map[] && |ids| > 0
  {
    if |ids| > 0 && t == map[] then InsertIgnoring(t, ids) else t
  }

  /** An import into the empty table yields one row per distinct legacy id, all in the default language. */
  lemma {:induction false} BootstrapCollapsesDuplicates(ids: seq<int>)
    requires |ids| > 0
    ensures Bootstrap(map[], ids).Keys == set x | x in ids
    ensures forall k :: k in Bootstrap(map[], ids) ==> Bootstrap(map[], ids)[k] == Translations.DefaultLanguage
  {
  }

  /** Starting again with the same legacy file leaves the table as the first start left it. */
  lemma {:induction false} BootstrapIdempotent(t: Table, ids: seq<int>)
    ensures Bootstrap(Bootstrap(t, ids), ids) == Bootstrap(t, ids)
  {
    if |ids| > 0 && t == map[] {
      assert ids[0] in Bootstrap(t, ids);
    }
  }

  /**
   * A legacy list shaped like [10, 20, 20, "bad"] loads as [10, 20, 20]: the
   * loader keeps duplicates and order and drops the word.
   */
  lemma {:induction false} LegacyIdsExample(a: int, b: int, word: string)
    requires |word| > 0 && Text.IsAsciiLetter(word[0])
    ensures LegacyIds(Entries([Json.Int(a), Json.Int(b), Json.Int(b), Json.Str(word)])) == [a, b, b]
  {
    var front := [Json.Int(a), Json.Int(b), Json.Int(b)];
    var bad := [Json.Str(word)];
    assert Convertible(bad) == [] by {
      Text.WordIsNotInt(word);
      assert bad[..0] == [];
    }
    assert Convertible(front) == [a, b, b] by {
      assert front[..1][..0] == [];
      assert Convertible(front[..1]) == [a];
      assert front[..2][..1] == front[..1];
      assert Convertible(front[..2]) == [a, b];
      assert front[..3][..2] == front[..2];
      assert front[..3] == front;
    }
    ConvertibleConcat(front, bad);
    assert front + bad == [Json.Int(a), Json.Int(b), Json.Int(b), Json.Str(word)];
  }

  /** Those ids import into the empty table as exactly the rows 10 and 20, and a second start keeps them. */
  lemma ImportExample()
    ensures Bootstrap(map[], [10, 20, 20]) == map[10 := "en", 20 := "en"]
    ensures Bootstrap(map[10 := "en", 20 := "en"], [10, 20, 20]) == map[10 := "en", 20 := "en"]
  {
    var r := Bootstrap(map[], [10, 20, 20]);
    assert (set x | x in [10, 20, 20]) == {10, 20};
    assert r.Keys == {10, 20};
  }
}
