/**
 * Persisted table state: the per-table record of column ratios and table
 * width, the key it is stored under, and the key-value store it lives in.
 * The JSON encoding on the way in and out is the identity here.
 */
module TableStore {

  /** `TTableProperties`: column id to percentage of the table width, and the width they were valid at. */
  datatype TableProperties = TableProperties(columnRatios: map<string, real>, tableWidth: real)

  /** What the regular expression `\d` (without the `u` flag) matches. */
  predicate IsDigit(ch: char) {
    '0' <= ch <= '9'
  }

  predicate NoDigits(s: string) {
    forall i | 0 <= i < |s| :: !IsDigit(s[i])
  }

  /** `replace(/\d/g, '')`: the string with every digit removed. */
  function StripDigits(s: string): (r: string)
    ensures NoDigits(r)
    ensures |r| <= |s|
  {
    if s == [] then []
    else (if IsDigit(s[0]) then [] else [s[0]]) + StripDigits(s[1..])
  }

  lemma {:induction false} StripDigitsAppend(a: string, b: string)
    ensures StripDigits(a + b) == StripDigits(a) + StripDigits(b)
  {
    if a != [] {
      var head := if IsDigit(a[0]) then [] else [a[0]];
      assert (a + b)[0] == a[0] && (a + b)[1..] == a[1..] + b;
      assert StripDigits(a + b) == head + StripDigits(a[1..] + b);
      StripDigitsAppend(a[1..], b);
      assert StripDigits(a) == head + StripDigits(a[1..]);
    } else {
      assert a + b == b;
    }
  }

  /** A string without digits comes through unchanged. */
  lemma {:induction false} StripDigitsKeepsNonDigits(s: string)
    requires NoDigits(s)
    ensures StripDigits(s) == s
  {
    if s != [] {
      StripDigitsKeepsNonDigits(s[1..]);
    }
  }

  /** A run of digits disappears completely. */
  lemma {:induction false} StripDigitsOfDigits(d: string)
    requires forall i | 0 <= i < |d| :: IsDigit(d[i])
    ensures StripDigits(d) == []
  {
    if d != [] {
      StripDigitsOfDigits(d[1..]);
    }
  }

  /** Stripping twice is stripping once. */
  lemma StripDigitsIdempotent(s: string)
    ensures StripDigits(StripDigits(s)) == StripDigits(s)
  {
    StripDigitsKeepsNonDigits(StripDigits(s));
  }

  /** Inserting digits anywhere in a path does not change what is left of it. */
  lemma DigitsDoNotMatter(a: string, d: string, b: string)
    requires forall i | 0 <= i < |d| :: IsDigit(d[i])
    ensures StripDigits(a + d + b) == StripDigits(a + b)
  {
    StripDigitsAppend(a + d, b);
    StripDigitsAppend(a, d);
    StripDigitsOfDigits(d);
    StripDigitsAppend(a, b);
  }

  const KeyPrefix: string := "tableProperties-"

  /**
   * `getLocalStorageKeyForTable`: prefix, table id, a dash, and the path
   * without its digits; whatever the path, the part after the dash has no digit.
   */
  function StorageKey(tableId: string, path: string): (key: string)
    ensures var head := KeyPrefix + tableId + "-";
            && |key| >= |head| && key[..|head|] == head
            && NoDigits(key[|head|..]) && |key[|head|..]| <= |path|
  {
    var head := KeyPrefix + tableId + "-";
    assert (head + StripDigits(path))[|head|..] == StripDigits(path);
    head + StripDigits(path)
  }

  /** One table shares its record between two paths exactly when they agree once their digits are removed. */
  lemma SameTableKeyIff(tableId: string, p: string, q: string)
    ensures StorageKey(tableId, p) == StorageKey(tableId, q) <==> StripDigits(p) == StripDigits(q)
  {
    var head := KeyPrefix + tableId + "-";
    if StorageKey(tableId, p) == StorageKey(tableId, q) {
      assert StorageKey(tableId, p)[|head|..] == StripDigits(p);
      assert StorageKey(tableId, q)[|head|..] == StripDigits(q);
    }
  }

  /** Paths such as `/items/42` and `/items/7` lead to the same record. */
  lemma ParameterisedRoutesShareKey(tableId: string)
    ensures StorageKey(tableId, "/items/42") == StorageKey(tableId, "/items/7")
  {
    DigitsDoNotMatter("/items/", "42", "");
    DigitsDoNotMatter("/items/", "7", "");
    assert "/items/" + "42" + "" == "/items/42";
    assert "/items/" + "7" + "" == "/items/7";
    assert "/items/" + "" == "/items/";
  }

  /** The browser's `localStorage`, holding decoded records by key. */
  class LocalStorage {
    var items: map<string, TableProperties>

    constructor (items: map<string, TableProperties>)
      ensures this.items == items
    {
      this.items := items;
    }
  }
}
