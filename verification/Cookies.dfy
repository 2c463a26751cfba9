/** Cookie maps, their printed form and the parser that reads it back. */
module Cookies {
  import opened Basics
  import opened Text

  type Cookies = map<string, string>

  datatype CookieError = NoCookies | Missing(keys: seq<string>)

  function Pair(key: string, value: string): string { key + "=" + value }

  /** The pairs of `keys`, in that order, with "; " between them. */
  function Joined(c: Cookies, keys: seq<string>): string
    requires forall i :: 0 <= i < |keys| ==> keys[i] in c
  {
    if keys == [] then ""
    else
      var front, last := keys[..|keys| - 1], keys[|keys| - 1];
      (if front == [] then "" else Joined(c, front) + "; ") + Pair(last, c[last])
  }

  /** `text` is what the cookies print as. */
  ghost predicate Prints(c: Cookies, text: string) {
    exists keys :: LexSorted(keys) && Lists(keys, c.Keys) && text == Joined(c, keys)
  }

  /** What one part of a cookie string contributes. */
  function Entry(part: string): Option<(string, string)> {
    var (key, value, found) := Cut(TrimSpace(part), '=');
    if !found || TrimSpace(key) == "" then None else Some((TrimSpace(key), TrimSpace(value)))
  }

  /** The entries of the parts, a later one replacing an earlier one with its key. */
  function Collected(parts: seq<string>): Cookies {
    if parts == [] then map[]
    else
      var before := Collected(parts[..|parts| - 1]);
      match Entry(parts[|parts| - 1])
      case None => before
      case Some((key, value)) => before[key := value]
  }

  function Parsed(raw: string): Result<Cookies, CookieError> {
    var c := Collected(Split(raw, ';'));
    if c == map[] then Err(NoCookies) else Ok(c)
  }

  /** The names of the cookies in order, from whatever order the map is ranged over. */
  method SortedKeys(c: Cookies) returns (keys: seq<string>)
    ensures LexSorted(keys) && forall k :: k in keys <==> k in c
  {
    keys := [];
    var todo := c.Keys;
    while todo != {}
      invariant todo <= c.Keys
      invariant LexSorted(keys)
      invariant forall k :: k in keys <==> k in c && k !in todo
    {
      var key :| key in todo;
      keys, todo := LexInsert(key, keys), todo - {key};
    }
  }

  /** The pairs of some of the cookies, one after the other. */
  method Write(c: Cookies, keys: seq<string>) returns (text: string)
    requires forall i :: 0 <= i < |keys| ==> keys[i] in c
    ensures text == Joined(c, keys)
  {
    text := "";
    for i := 0 to |keys|
      invariant text == Joined(c, keys[..i])
    {
      assert keys[..i + 1][..i] == keys[..i];
      if i > 0 { text := text + "; "; }
      text := text + Pair(keys[i], c[keys[i]]);
    }
    assert keys[..|keys|] == keys;
  }

  /** Prints the cookies in order of their keys. */
  method Print(c: Cookies) returns (text: string)
    ensures Prints(c, text)
  {
    var keys := SortedKeys(c);
    assert forall i :: 0 <= i < |keys| ==> keys[i] in keys;
    text := Write(c, keys);
  }

  method ParseCookieString(raw: string) returns (r: Result<Cookies, CookieError>)
    ensures r == Parsed(raw)
  {
    var result: Cookies := map[];
    var parts := Split(raw, ';');
    for i := 0 to |parts|
      invariant result == Collected(parts[..i])
    {
      assert parts[..i + 1][..i] == parts[..i];
      var (before, after, found) := Cut(TrimSpace(parts[i]), '=');
      var key := TrimSpace(before);
      if !found || key == "" { continue; }
      result := result[key := TrimSpace(after)];
    }
    assert parts[..|parts|] == parts;
    r := if |result| == 0 then Err(NoCookies) else Ok(result);
  }

  const REQUIRED_REGULAR: seq<string> := ["c_user", "xs"]

  /** The required keys whose value is missing or blank, in order. */
  function MissingFrom(c: Cookies, required: seq<string>): seq<string> {
    if required == [] then []
    else
      var last := required[|required| - 1];
      MissingFrom(c, required[..|required| - 1]) +
        (if TrimSpace(if last in c then c[last] else "") == "" then [last] else [])
  }

  /** The cookies every regular session must have. */
  predicate RegularCookies(c: Cookies) {
    ("c_user" in c && TrimSpace(c["c_user"]) != "") && ("xs" in c && TrimSpace(c["xs"]) != "")
  }

  method ValidateRegular(c: Cookies) returns (r: Outcome<CookieError>)
    ensures r.Done? <==> RegularCookies(c)
    ensures r.Failed? ==> r.error != Missing([])
    ensures r.Failed? ==> r.error == Missing(
      (if "c_user" in c && TrimSpace(c["c_user"]) != "" then [] else ["c_user"]) +
      (if "xs" in c && TrimSpace(c["xs"]) != "" then [] else ["xs"]))
  {
    var missing: seq<string> := [];
    for i := 0 to |REQUIRED_REGULAR|
      invariant missing == MissingFrom(c, REQUIRED_REGULAR[..i])
    {
      assert REQUIRED_REGULAR[..i + 1][..i] == REQUIRED_REGULAR[..i];
      var key := REQUIRED_REGULAR[i];
      if TrimSpace(if key in c then c[key] else "") == "" { missing := missing + [key]; }
    }
    assert REQUIRED_REGULAR[..|REQUIRED_REGULAR|] == REQUIRED_REGULAR;
    assert REQUIRED_REGULAR[..1] == ["c_user"] && ["c_user"][..0] == [];
    assert MissingFrom(c, REQUIRED_REGULAR) ==
      MissingFrom(c, ["c_user"]) + (if TrimSpace(if "xs" in c then c["xs"] else "") == "" then ["xs"] else []);
    r := if |missing| > 0 then Failed(Missing(missing)) else Done;
  }

  /** A cookie a cookie string can carry. */
  predicate CarriedKey(k: string) { k != "" && Trimmed(k) && ';' !in k && '=' !in k }

  predicate CarriedValue(v: string) { Trimmed(v) && ';' !in v }

  ghost predicate Printable(c: Cookies) {
    c != map[] && forall k :: k in c ==> CarriedKey(k) && CarriedValue(c[k])
  }

  // ---------------------------------------------------------------------------------------------

  /** Cookies print as one text, whatever order the map is ranged over. */
  lemma OnePrintedForm(c: Cookies, a: string, b: string)
    requires Prints(c, a) && Prints(c, b)
    ensures a == b
  {
    var r :| LexSorted(r) && Lists(r, c.Keys) && a == Joined(c, r);
    var s :| LexSorted(s) && Lists(s, c.Keys) && b == Joined(c, s);
    LexSortedIsUnique(r, s);
  }

  lemma PairIsTrimmed(key: string, value: string)
    requires CarriedKey(key) && CarriedValue(value)
    ensures Trimmed(Pair(key, value))
    ensures TrimSpace(Pair(key, value)) == Pair(key, value) == TrimSpace(" " + Pair(key, value))
  {
    var pair := Pair(key, value);
    assert pair[0] == key[0];
    assert pair[|pair| - 1] == if value == "" then '=' else value[|value| - 1];
    TrimSpaceTrims(pair);
    assert (" " + pair)[1..] == pair;
    assert TrimLeft(" " + pair) == TrimLeft(pair);
  }

  /** A printed pair, with or without the space before it, is read back. */
  lemma PairIsRead(key: string, value: string)
    requires CarriedKey(key) && CarriedValue(value)
    ensures Entry(Pair(key, value)) == Entry(" " + Pair(key, value)) == Some((key, value))
  {
    PairIsTrimmed(key, value);
    TrimSpaceTrims(key);
    TrimSpaceTrims(value);
    CutAtFirst(key, value, '=');
    assert Pair(key, value) == key + ['='] + value;
  }

  ghost predicate AllCarried(c: Cookies, keys: seq<string>) {
    forall i :: 0 <= i < |keys| ==> keys[i] in c && CarriedKey(keys[i]) && CarriedValue(c[keys[i]])
  }

  lemma CollectedAppend(parts: seq<string>, part: string, key: string, value: string)
    requires Entry(part) == Some((key, value))
    ensures Collected(parts + [part]) == Collected(parts)[key := value]
  {
    assert (parts + [part])[..|parts|] == parts;
  }

  lemma NothingCollected()
    ensures Collected(Split("", ';')) == map[]
  {
    assert [""][..0] == [];
    assert Entry("") == None;
    assert Collected([""]) == Collected([]);
  }

  lemma SeparatorNotInPair(key: string, value: string)
    requires CarriedKey(key) && CarriedValue(value)
    ensures ';' !in Pair(key, value) && ';' !in " " + Pair(key, value)
  {
  }

  lemma JoinedAppend(c: Cookies, front: seq<string>, last: string)
    requires last in c && forall i :: 0 <= i < |front| ==> front[i] in c
    ensures Joined(c, front + [last]) ==
      if front == [] then Pair(last, c[last]) else Joined(c, front) + "; " + Pair(last, c[last])
  {
    var keys := front + [last];
    assert keys[..|keys| - 1] == front && keys[|keys| - 1] == last;
    assert "" + Pair(last, c[last]) == Pair(last, c[last]);
  }

  lemma SplitAfterPair(before: string, pair: string)
    requires ';' !in pair
    ensures Split(before + "; " + pair, ';') == Split(before, ';') + [" " + pair]
  {
    assert before + "; " + pair == before + [';'] + (" " + pair);
    SplitAppend(before, " " + pair, ';');
  }

  /** Reading joined pairs collects exactly the cookies they were printed from. */
  lemma {:induction false} JoinedIsCollected(c: Cookies, keys: seq<string>)
    requires AllCarried(c, keys)
    ensures Collected(Split(Joined(c, keys), ';')) == map k | k in keys :: c[k]
    decreases |keys|
  {
    if keys == [] {
      NothingCollected();
    } else {
      var front, last := keys[..|keys| - 1], keys[|keys| - 1];
      assert keys == front + [last];
      JoinedIsCollected(c, front);
      JoinedAppend(c, front, last);
      PairIsRead(last, c[last]);
      SeparatorNotInPair(last, c[last]);
      if front == [] {
        SplitWithoutSeparator(Pair(last, c[last]), ';');
        CollectedAppend([], Pair(last, c[last]), last, c[last]);
        assert [] + [Pair(last, c[last])] == [Pair(last, c[last])];
      } else {
        SplitAfterPair(Joined(c, front), Pair(last, c[last]));
        CollectedAppend(Split(Joined(c, front), ';'), " " + Pair(last, c[last]), last, c[last]);
      }
      KeysAppend(c, front, last);
    }
  }

  lemma KeysAppend(c: Cookies, front: seq<string>, last: string)
    requires last in c && forall i :: 0 <= i < |front| ==> front[i] in c
    ensures (map k | k in front + [last] :: c[k]) == (map k | k in front :: c[k])[last := c[last]]
  {
  }

  /** Everything the parser returns can be carried by a cookie string. */
  lemma {:induction false} CollectedIsCarried(parts: seq<string>)
    requires forall i :: 0 <= i < |parts| ==> ';' !in parts[i]
    ensures forall k :: k in Collected(parts) ==> CarriedKey(k) && CarriedValue(Collected(parts)[k])
    decreases |parts|
  {
    if parts != [] {
      CollectedIsCarried(parts[..|parts| - 1]);
      var part := parts[|parts| - 1];
      TrimSpaceTrims(part);
      var (before, after, found) := Cut(TrimSpace(part), '=');
      TrimSpaceTrims(before);
      TrimSpaceTrims(after);
      if found { assert forall ch :: ch in before || ch in after ==> ch in TrimSpace(part); }
    }
  }

  lemma ParsedIsPrintable(raw: string)
    requires Parsed(raw).Ok?
    ensures Printable(Parsed(raw).value)
  {
    SplitParts(raw, ';');
    CollectedIsCarried(Split(raw, ';'));
  }

  /** Parsing the printed form gives the cookies back exactly when a cookie string can carry them all. */
  lemma RoundTripExactlyWhenPrintable(c: Cookies, text: string)
    requires Prints(c, text)
    ensures Parsed(text) == Ok(c) <==> Printable(c)
  {
    var keys :| LexSorted(keys) && Lists(keys, c.Keys) && text == Joined(c, keys);
    assert forall i :: 0 <= i < |keys| ==> keys[i] in keys;
    if Printable(c) {
      JoinedIsCollected(c, keys);
      assert (map k | k in keys :: c[k]) == c;
    }
    if Parsed(text) == Ok(c) { ParsedIsPrintable(text); }
  }

  /** Printing and parsing again changes nothing of what the parser ever returned. */
  lemma ParsingIsStable(raw: string, text: string)
    requires Parsed(raw).Ok? && Prints(Parsed(raw).value, text)
    ensures Parsed(text) == Parsed(raw)
  {
    ParsedIsPrintable(raw);
    RoundTripExactlyWhenPrintable(Parsed(raw).value, text);
  }

  // ---------------------------------------------------------------------------------------------
  // The printed form and the parse in terms of the texts

  /** Two cookies print in the order of their names, as name, equals sign and value, with "; " between. */
  lemma TwoCookiesPrint(k1: string, v1: string, k2: string, v2: string, i: nat)
    requires i < |k1| && i < |k2| && k1[..i] == k2[..i] && k1[i] < k2[i]
    ensures Prints(map[k1 := v1, k2 := v2], k1 + "=" + v1 + "; " + k2 + "=" + v2)
  {
    LexLessAtFirstDifference(k1, k2, i);
    var c, keys := map[k1 := v1, k2 := v2], [k1] + [k2];
    JoinedAppend(c, [], k1);
    JoinedAppend(c, [k1], k2);
    assert [] + [k1] == [k1];
    assert Joined(c, keys) == k1 + "=" + v1 + "; " + k2 + "=" + v2;
    assert Lists(keys, c.Keys) && LexSorted(keys);
  }

  /** The part is, but for white space at its ends, a name and a value around its first equals sign. */
  ghost predicate NamesAs(part: string, key: string, value: string, before: string, after: string) {
    && key != "" && '=' !in before && TrimSpace(part) == before + "=" + after
    && key == TrimSpace(before) && value == TrimSpace(after)
  }

  ghost predicate Gives(part: string, key: string, value: string) {
    exists before, after :: NamesAs(part, key, value, before, after)
  }

  lemma EntryGives(part: string, key: string, value: string)
    ensures Entry(part) == Some((key, value)) <==> Gives(part, key, value)
  {
    if Gives(part, key, value) {
      var before, after :| NamesAs(part, key, value, before, after);
      CutAtFirst(before, after, '=');
      assert before + "=" + after == before + ['='] + after;
    } else if Entry(part) == Some((key, value)) {
      var (before, after, found) := Cut(TrimSpace(part), '=');
      assert NamesAs(part, key, value, before, after);
    }
  }

  /** The last of the parts that gives the name any value gives it this one. */
  ghost predicate LastGives(parts: seq<string>, key: string, value: string) {
    exists i :: 0 <= i < |parts| && Gives(parts[i], key, value)
                && forall j, v :: i < j < |parts| ==> !Gives(parts[j], key, v)
  }

  lemma LastGivesOneMore(parts: seq<string>, part: string, key: string, value: string)
    ensures LastGives(parts + [part], key, value) <==>
      Gives(part, key, value) || (LastGives(parts, key, value) && forall v :: !Gives(part, key, v))
  {
    var all := parts + [part];
    if LastGives(all, key, value) {
      var i :| 0 <= i < |all| && Gives(all[i], key, value) && forall j, v :: i < j < |all| ==> !Gives(all[j], key, v);
      if i < |parts| {
        assert Gives(parts[i], key, value);
        assert forall j, v :: i < j < |parts| ==> all[j] == parts[j] && !Gives(parts[j], key, v);
        assert all[|parts|] == part;
      }
    }
    if Gives(part, key, value) { assert Gives(all[|parts|], key, value); }
    if LastGives(parts, key, value) && forall v :: !Gives(part, key, v) {
      var i :| 0 <= i < |parts| && Gives(parts[i], key, value)
               && forall j, v :: i < j < |parts| ==> !Gives(parts[j], key, v);
      assert Gives(all[i], key, value);
    }
  }

  lemma {:induction false} CollectedLookup(parts: seq<string>, key: string, value: string)
    ensures key in Collected(parts) && Collected(parts)[key] == value <==> LastGives(parts, key, value)
    decreases |parts|
  {
    if parts != [] {
      var front, part := parts[..|parts| - 1], parts[|parts| - 1];
      assert parts == front + [part];
      CollectedLookup(front, key, value);
      LastGivesOneMore(front, part, key, value);
      forall v ensures Entry(part) == Some((key, v)) <==> Gives(part, key, v) { EntryGives(part, key, v); }
    }
  }

  /** Texts with semicolons between them. */
  function Separated(parts: seq<string>): string
    requires parts != []
  {
    if |parts| == 1 then parts[0] else Separated(parts[..|parts| - 1]) + ";" + parts[|parts| - 1]
  }

  lemma {:induction false} SeparatedSplits(parts: seq<string>)
    requires parts != [] && forall i :: 0 <= i < |parts| ==> ';' !in parts[i]
    ensures Split(Separated(parts), ';') == parts
    decreases |parts|
  {
    var front, last := parts[..|parts| - 1], parts[|parts| - 1];
    assert parts == front + [last];
    if front == [] {
      SplitWithoutSeparator(last, ';');
    } else {
      SeparatedSplits(front);
      SplitAppend(Separated(front), last, ';');
    }
  }

  /**
   A cookie string parses to exactly what the last of its parts with each name gives, and is refused
   exactly when no part gives anything.
   */
  lemma ParsedIsWhatTheLastPartsGive(parts: seq<string>)
    requires parts != [] && forall i :: 0 <= i < |parts| ==> ';' !in parts[i]
    ensures var r := Parsed(Separated(parts));
      && (r == Err(NoCookies) <==> forall k, v :: !LastGives(parts, k, v))
      && (r.Ok? ==> forall k, v :: k in r.value && r.value[k] == v <==> LastGives(parts, k, v))
  {
    SeparatedSplits(parts);
    var c := Collected(parts);
    forall k, v ensures k in c && c[k] == v <==> LastGives(parts, k, v) { CollectedLookup(parts, k, v); }
    if c != map[] {
      var k :| k in c;
      assert LastGives(parts, k, c[k]);
    }
  }
}
