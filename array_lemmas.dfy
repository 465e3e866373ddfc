/**
 * Properties of the array case of the configuration parser: a line
 * `key = {a,b,c}` stores the pins named by the items when there are no more
 * of them than the entry allows, and an array that is not closed, or holds
 * too many items, changes nothing.
 */
module ArrayLines {
  import opened Common
  import opened Pins
  import opened ConfigValues
  import opened ConfigParser
  import opened ConfigProperties

  /** The pins the item texts of an array name, in order. */
  function PinsOf(names: map<string, Pin>, items: seq<string>): (r: seq<Pin>)
    ensures |r| == |items| && forall i :: 0 <= i < |items| ==> r[i] == LookupPinOf(names, items[i])
  {
    if |items| == 0 then [] else [LookupPinOf(names, items[0])] + PinsOf(names, items[1..])
  }

  /** An item of an array: a non-empty run of the characters an array value may hold. */
  predicate Item(s: string) {
    |s| > 0 && forall i :: 0 <= i < |s| ==> Continues(ArrayValueChars, s[i])
  }

  /** `b` holds from `pos` on the items separated by ',' and closed by '}'. */
  predicate ItemsAt(b: seq<char>, pos: nat, items: seq<string>)
    decreases |items|
  {
    if |items| == 0 then pos < |b| && b[pos] == '}'
    else
      var e := pos + |items[0]|;
      Item(items[0]) && e < |b| && (forall k :: pos <= k < e ==> b[k] == items[0][k - pos]) &&
      (if |items| == 1 then b[e] == '}' else b[e] == ',' && ItemsAt(b, e + 1, items[1..]))
  }

  /**
   * The layout of an array line held in `t`, ending at `len`: a key in
   * `t[0..k]`, separators in `t[k..v]`, then '{' and the items.
   */
  predicate ArrayLayout(t: seq<char>, len: nat, k: nat, v: nat, items: seq<string>) {
    |t| == MaxLineLength && len < MaxLineLength && t[len] == NUL &&
    0 < k < v < len && t[0] != '/' && t[0] != '#' &&
    (forall i :: 0 <= i < k ==> Continues(KeyChars, t[i])) &&
    (forall i :: k <= i < v ==> Continues(Separators, t[i])) &&
    t[v] == '{' && ItemsAt(t, v + 1, items)
  }

  /** The text after the opening brace of an array of `items`, closing brace included. */
  function ArrayText(items: seq<string>): (r: string)
    ensures |r| > 0 && r[|r| - 1] == '}'
    decreases |items|
  {
    if |items| == 0 then "}"
    else if |items| == 1 then items[0] + "}"
    else items[0] + "," + ArrayText(items[1..])
  }

  // ---------------------------------------------------------------------
  // Items in a buffer

  /** The items do not depend on what the buffer holds before them. */
  lemma {:induction false} ItemsAtFrame(b: seq<char>, c: seq<char>, pos: nat, items: seq<string>)
    requires |b| == |c| && ItemsAt(b, pos, items)
    requires forall k :: pos <= k < |b| ==> b[k] == c[k]
    ensures ItemsAt(c, pos, items)
    decreases |items|
  {
    if |items| > 1 {
      ItemsAtFrame(b, c, pos + |items[0]| + 1, items[1..]);
    }
  }

  /** The first character of an array's items ends a run of blanks. */
  lemma ItemsAtStart(b: seq<char>, pos: nat, items: seq<string>)
    requires ItemsAt(b, pos, items)
    ensures pos < |b| && !Continues(Blanks, b[pos])
  {
    if |items| > 0 {
      assert b[pos] == items[0][0];
    }
  }

  /** An array's text stored at `pos` holds its items there. */
  lemma {:induction false} ArrayTextItems(b: seq<char>, pos: nat, items: seq<string>)
    requires forall i :: 0 <= i < |items| ==> Item(items[i])
    requires pos + |ArrayText(items)| <= |b|
    requires forall k :: pos <= k < pos + |ArrayText(items)| ==> b[k] == ArrayText(items)[k - pos]
    ensures ItemsAt(b, pos, items)
    decreases |items|
  {
    if |items| == 0 {
      assert b[pos] == ArrayText(items)[0];
    } else {
      ArrayTextFirst(b, pos, items);
      if |items| > 1 {
        ArrayTextRest(b, pos, items);
        ArrayTextItems(b, pos + |items[0]| + 1, items[1..]);
      }
    }
  }

  /** The first item of an array's text and the character after it. */
  lemma ArrayTextFirst(b: seq<char>, pos: nat, items: seq<string>)
    requires |items| > 0 && pos + |ArrayText(items)| <= |b|
    requires forall k :: pos <= k < pos + |ArrayText(items)| ==> b[k] == ArrayText(items)[k - pos]
    ensures var e := pos + |items[0]|;
      e < |b| && (forall k :: pos <= k < e ==> b[k] == items[0][k - pos]) &&
      b[e] == (if |items| == 1 then '}' else ',')
  {
    var s := ArrayText(items);
    var x := items[0];
    assert s[..|x| + 1] == x + [if |items| == 1 then '}' else ','];
    forall k | pos <= k <= pos + |x|
      ensures b[k] == s[..|x| + 1][k - pos]
    {
    }
  }

  /** The rest of an array's text after its first item and comma. */
  lemma ArrayTextRest(b: seq<char>, pos: nat, items: seq<string>)
    requires |items| > 1 && pos + |ArrayText(items)| <= |b|
    requires forall k :: pos <= k < pos + |ArrayText(items)| ==> b[k] == ArrayText(items)[k - pos]
    ensures var e := pos + |items[0]|;
      e + 1 + |ArrayText(items[1..])| <= |b| &&
      forall k :: e + 1 <= k < e + 1 + |ArrayText(items[1..])| ==> b[k] == ArrayText(items[1..])[k - (e + 1)]
  {
    var s := ArrayText(items);
    var n := |items[0]| + 1;
    assert s[n..] == ArrayText(items[1..]);
    forall k | pos + n <= k < pos + |s|
      ensures b[k] == s[n..][k - (pos + n)]
    {
    }
  }

  // ---------------------------------------------------------------------
  // The search loop

  /** A cursor loop that meets a NUL stops there at the latest. */
  lemma ScanBeforeNul(b: seq<char>, pos: nat, bound: nat, run: Run, q: nat)
    requires bound <= |b| && pos <= q < bound && b[q] == NUL
    ensures Scan(b, pos, bound, run) <= q
  {
    NulStopsEveryRun(run);
  }

  /**
   * The search over items `items`, with `read` already read: the pins are
   * stored when at least one was read and no more than `max` were, and the
   * variables are left as they were otherwise.
   */
  lemma {:induction false} SearchItems(max: nat, slot: nat, st: Parse, read: seq<Pin>, names: map<string, Pin>, items: seq<string>)
    requires |st.line| == MaxLineLength && slot < |st.values| && |read| <= max
    requires ItemsAt(st.line, st.pos, items)
    ensures SearchArray(max, slot, st, read, names).values ==
      if 0 < |read| + |items| <= max then st.values[slot := CopyPins(st.values[slot], read + PinsOf(names, items))]
      else st.values
    decreases |items|, 1
  {
    ItemsAtStart(st.line, st.pos, items);
    ScanStops(st.line, st.pos, MaxLineLength, Blanks, st.pos);
    if |items| == 0 {
      assert read + PinsOf(names, items) == read;
    } else if |read| < max {
      ItemStep(max, slot, st, read, names, items);
      if |items| == 1 {
        assert PinsOf(names, items) == [LookupPinOf(names, items[0])];
      } else {
        SearchMoreItems(max, slot, st, read, names, items);
      }
    }
  }

  /** The search after the first of several items, which it reads and cuts out. */
  lemma {:induction false} SearchMoreItems(max: nat, slot: nat, st: Parse, read: seq<Pin>, names: map<string, Pin>, items: seq<string>)
    requires |st.line| == MaxLineLength && slot < |st.values| && |read| < max
    requires ItemsAt(st.line, st.pos, items) && |items| > 1
    ensures var e := st.pos + |items[0]|;
      var pin := LookupPinOf(names, items[0]);
      e < MaxLineLength &&
      SearchArray(max, slot, Parse(CutValue(st.line, st.pos, e), e + 1, st.values), read + [pin], names).values ==
        if |read| + |items| <= max then st.values[slot := CopyPins(st.values[slot], read + PinsOf(names, items))]
        else st.values
    decreases |items|, 0
  {
    var e := st.pos + |items[0]|;
    var pin := LookupPinOf(names, items[0]);
    ItemsAfterCut(st.line, st.pos, items);
    SearchItems(max, slot, Parse(CutValue(st.line, st.pos, e), e + 1, st.values), read + [pin], names, items[1..]);
    PinsStep(names, items, read);
  }

  lemma PinsStep(names: map<string, Pin>, items: seq<string>, read: seq<Pin>)
    requires |items| > 0
    ensures read + [LookupPinOf(names, items[0])] + PinsOf(names, items[1..]) == read + PinsOf(names, items)
  {
  }

  /** Cutting out the first of several items leaves the others in place. */
  lemma ItemsAfterCut(b: seq<char>, pos: nat, items: seq<string>)
    requires ItemsAt(b, pos, items) && |items| > 1
    ensures var e := pos + |items[0]|;
      e < |b| && ItemsAt(CutValue(b, pos, e), e + 1, items[1..])
  {
    var e := pos + |items[0]|;
    CutValueAt(b, pos, e);
    ItemsAtFrame(b, CutValue(b, pos, e), e + 1, items[1..]);
  }

  /** The search reading the first of `items`. */
  lemma ItemStep(max: nat, slot: nat, st: Parse, read: seq<Pin>, names: map<string, Pin>, items: seq<string>)
    requires |st.line| == MaxLineLength && slot < |st.values| && |read| < max
    requires ItemsAt(st.line, st.pos, items) && |items| > 0
    ensures var e := st.pos + |items[0]|;
      var pin := LookupPinOf(names, items[0]);
      e < MaxLineLength &&
      SearchArray(max, slot, st, read, names) ==
        if |items| == 1 then Parse(CutValue(st.line, st.pos, e), e, st.values[slot := CopyPins(st.values[slot], read + [pin])])
        else SearchArray(max, slot, Parse(CutValue(st.line, st.pos, e), e + 1, st.values), read + [pin], names)
  {
    var b := st.line;
    var e := st.pos + |items[0]|;
    assert b[st.pos] == items[0][0];
    ScanStops(b, st.pos, MaxLineLength, Blanks, st.pos);
    ScanStops(b, st.pos, MaxLineLength, ArrayValueChars, e);
    assert b[st.pos..e] == items[0];
    SearchValueStep(max, slot, st, read, names, st.pos, e);
  }

  /** An array with no closing brace before a NUL changes nothing. */
  lemma {:induction false} SearchUnclosed(max: nat, slot: nat, st: Parse, read: seq<Pin>, names: map<string, Pin>, q: nat)
    requires |st.line| == MaxLineLength && slot < |st.values| && |read| <= max
    requires st.pos <= q < MaxLineLength && st.line[q] == NUL
    requires forall i :: st.pos <= i < q ==> st.line[i] != '}'
    ensures SearchArray(max, slot, st, read, names).values == st.values
    decreases MaxLineLength - st.pos
  {
    var b := st.line;
    var p := Scan(b, st.pos, MaxLineLength, Blanks);
    ScanBeforeNul(b, st.pos, MaxLineLength, Blanks, q);
    if b[p] != '}' && |read| < max {
      var e := Scan(b, p, MaxLineLength, ArrayValueChars);
      ScanBeforeNul(b, p, MaxLineLength, ArrayValueChars, q);
      if b[e] != NUL && b[e] != '/' && b[e] != '#' && b[e] != ';' {
        SearchValueStep(max, slot, st, read, names, p, e);
        CutValueAt(b, p, e);
        var pin := LookupPinOf(names, b[p..e]);
        SearchUnclosed(max, slot, Parse(CutValue(b, p, e), e + 1, st.values), read + [pin], names, q);
      } else {
        SearchFails(max, slot, st, read, names, p, e);
      }
    }
  }

  /**
   * The search either changes nothing or stores in `slot` pins that extend
   * those read so far, at least one and at most `max`; no other variable
   * changes.
   */
  lemma {:induction false} SearchShape(max: nat, slot: nat, st: Parse, read: seq<Pin>, names: map<string, Pin>)
    requires |st.line| == MaxLineLength && slot < |st.values| && |read| <= max
    ensures var r := SearchArray(max, slot, st, read, names);
      r.values == st.values ||
      exists pins: seq<Pin> :: read <= pins && 0 < |pins| <= max && r.values == st.values[slot := CopyPins(st.values[slot], pins)]
    decreases MaxLineLength - st.pos, 1
  {
    var b := st.line;
    if st.pos < MaxLineLength {
      var p := Scan(b, st.pos, MaxLineLength, Blanks);
      if p < MaxLineLength && b[p] == '}' && |read| > 0 {
        assert read <= read;
      } else if p < MaxLineLength && b[p] != '}' && |read| < max {
        var e := Scan(b, p, MaxLineLength, ArrayValueChars);
        if e < MaxLineLength && b[e] != NUL && b[e] != '/' && b[e] != '#' && b[e] != ';' {
          SearchShapeStep(max, slot, st, read, names, p, e);
        } else {
          SearchFails(max, slot, st, read, names, p, e);
        }
      }
    }
  }

  /** `SearchShape` for a value that ends in a blank, ',' or '}'. */
  lemma {:induction false} SearchShapeStep(max: nat, slot: nat, st: Parse, read: seq<Pin>, names: map<string, Pin>, p: nat, e: nat)
    requires |st.line| == MaxLineLength && slot < |st.values| && |read| < max
    requires st.pos < MaxLineLength && p == Scan(st.line, st.pos, MaxLineLength, Blanks) && p < MaxLineLength && st.line[p] != '}'
    requires e == Scan(st.line, p, MaxLineLength, ArrayValueChars) && e < MaxLineLength
    requires st.line[e] != NUL && st.line[e] != '/' && st.line[e] != '#' && st.line[e] != ';'
    ensures var r := SearchArray(max, slot, st, read, names);
      r.values == st.values ||
      exists pins: seq<Pin> :: read <= pins && 0 < |pins| <= max && r.values == st.values[slot := CopyPins(st.values[slot], pins)]
    decreases MaxLineLength - st.pos, 0
  {
    var b := st.line;
    SearchValueStep(max, slot, st, read, names, p, e);
    var pin := LookupPinOf(names, b[p..e]);
    if b[e] == '}' {
      assert read <= read + [pin];
    } else {
      var next := Parse(CutValue(b, p, e), e + 1, st.values);
      SearchShape(max, slot, next, read + [pin], names);
      var r := SearchArray(max, slot, next, read + [pin], names);
      if r.values != st.values {
        var pins :| read + [pin] <= pins && 0 < |pins| <= max && r.values == st.values[slot := CopyPins(st.values[slot], pins)];
        assert read <= pins;
      }
    }
  }

  // ---------------------------------------------------------------------
  // The entry loop of the array case

  /** An array entry whose key matches. */
  predicate ArrayMatch(en: Entry, key: string) {
    en.maxArrayEntries.Some? && EqualsIgnoreCase(key, en.key)
  }

  /** Entries from `i` on none of which is an array entry for `key` leave the state alone. */
  lemma {:induction false} ArrayEntriesNone(entries: seq<Entry>, i: nat, key: string, st: Parse, names: map<string, Pin>)
    requires |st.line| == MaxLineLength && Fits(entries, st.values)
    requires forall n :: i <= n < |entries| ==> !ArrayMatch(entries[n], key)
    ensures ArrayEntries(entries, i, key, st, names) == st
    decreases |entries| - i
  {
    if i < |entries| {
      ArrayEntriesNone(entries, i + 1, key, st, names);
    }
  }

  /** When exactly one array entry has the key, the array case reads that entry's array and nothing else. */
  lemma {:induction false} ArrayEntriesOne(entries: seq<Entry>, i: nat, key: string, st: Parse, names: map<string, Pin>, j: nat)
    requires |st.line| == MaxLineLength && Fits(entries, st.values)
    requires i <= j < |entries| && ArrayMatch(entries[j], key)
    requires forall n :: i <= n < |entries| && n != j ==> !ArrayMatch(entries[n], key)
    ensures ArrayEntries(entries, i, key, st, names) == ReadArray(entries[j].maxArrayEntries.value, entries[j].variable, st, names)
    decreases |entries| - i
  {
    if i < j {
      ArrayEntriesOne(entries, i + 1, key, st, names, j);
    } else {
      var r := ReadArray(entries[j].maxArrayEntries.value, entries[j].variable, st, names);
      ArrayEntriesNone(entries, j + 1, key, r, names);
    }
  }

  /** The array case changes only the variables of the array entries whose key matches. */
  lemma {:induction false} ArrayEntriesFrame(entries: seq<Entry>, i: nat, key: string, st: Parse, names: map<string, Pin>, slot: nat)
    requires |st.line| == MaxLineLength && Fits(entries, st.values) && slot < |st.values|
    requires forall n :: i <= n < |entries| && ArrayMatch(entries[n], key) ==> entries[n].variable != slot
    ensures ArrayEntries(entries, i, key, st, names).values[slot] == st.values[slot]
    decreases |entries| - i
  {
    if i < |entries| {
      var en := entries[i];
      if ArrayMatch(en, key) {
        var max := en.maxArrayEntries.value;
        var p := Scan(st.line, st.pos, MaxLineLength, Blanks);
        SearchShape(max, en.variable, Parse(st.line, p, st.values), [], names);
        ArrayEntriesFrame(entries, i + 1, key, ReadArray(max, en.variable, st, names), names, slot);
      } else {
        ArrayEntriesFrame(entries, i + 1, key, st, names, slot);
      }
    }
  }

  // ---------------------------------------------------------------------
  // Array lines

  /**
   * A line whose key ends at `k`, whose separators end at `v` with '{', and
   * whose items follow: when exactly one array entry has the key, its
   * variable gets the items' pins if there are at least one and at most as
   * many as the entry allows, and nothing changes otherwise.
   */
  lemma ArrayLineAt(t: seq<char>, len: nat, k: nat, v: nat, items: seq<string>, entries: seq<Entry>, values: seq<Value>, names: map<string, Pin>, j: nat)
    requires ArrayLayout(t, len, k, v, items) && Fits(entries, values)
    requires j < |entries| && ArrayMatch(entries[j], t[0..k])
    requires forall n :: 0 <= n < |entries| && n != j ==> !ArrayMatch(entries[n], t[0..k])
    ensures var max := entries[j].maxArrayEntries.value;
      var slot := entries[j].variable;
      LineEffect(t, len, entries, values, names).values ==
        if 0 < |items| <= max then values[slot := CopyPins(values[slot], PinsOf(names, items))] else values
  {
    ItemsAtKey(t, k, v + 1, items);
    ArrayEntriesItems(entries, t[0..k], Parse(t[k := NUL], v + 1, values), names, items, j);
    ArrayLineEntries(t, len, k, v, entries, values, names);
  }

  lemma ItemsAtKey(t: seq<char>, k: nat, pos: nat, items: seq<string>)
    requires ItemsAt(t, pos, items) && k < pos && k < |t|
    ensures ItemsAt(t[k := NUL], pos, items)
  {
    ItemsAtFrame(t, t[k := NUL], pos, items);
  }

  /** The array case on items, when exactly one array entry has the key. */
  lemma ArrayEntriesItems(entries: seq<Entry>, key: string, st: Parse, names: map<string, Pin>, items: seq<string>, j: nat)
    requires |st.line| == MaxLineLength && Fits(entries, st.values) && ItemsAt(st.line, st.pos, items)
    requires j < |entries| && ArrayMatch(entries[j], key)
    requires forall n :: 0 <= n < |entries| && n != j ==> !ArrayMatch(entries[n], key)
    ensures var max := entries[j].maxArrayEntries.value;
      var slot := entries[j].variable;
      ArrayEntries(entries, 0, key, st, names).values ==
        if 0 < |items| <= max then st.values[slot := CopyPins(st.values[slot], PinsOf(names, items))] else st.values
  {
    ArrayEntriesOne(entries, 0, key, st, names, j);
    ReadItems(entries[j].maxArrayEntries.value, entries[j].variable, st, names, items);
  }

  /** A line whose key ends at `k` and whose separators end at `v` with '{' goes to the array case. */
  lemma ArrayLineEntries(t: seq<char>, len: nat, k: nat, v: nat, entries: seq<Entry>, values: seq<Value>, names: map<string, Pin>)
    requires |t| == MaxLineLength && len < MaxLineLength && t[len] == NUL && Fits(entries, values)
    requires 0 < k < v < len && t[0] != '/' && t[0] != '#'
    requires forall i :: 0 <= i < k ==> Continues(KeyChars, t[i])
    requires forall i :: k <= i < v ==> Continues(Separators, t[i])
    requires t[v] == '{'
    ensures LineEffect(t, len, entries, values, names) == ArrayEntries(entries, 0, t[0..k], Parse(t[k := NUL], v + 1, values), names)
  {
    assert Continues(Separators, t[k]);
    KeyScan(t, len, k);
    ScanStops(t[k := NUL], k + 1, len, Separators, v);
    KeyedArrayCase(t, len, 0, k, v, entries, values, names);
    KeyFound(t, len, k, entries, values, names);
  }

  /** Reading an array whose items follow the opening brace. */
  lemma ReadItems(max: nat, slot: nat, st: Parse, names: map<string, Pin>, items: seq<string>)
    requires |st.line| == MaxLineLength && slot < |st.values| && ItemsAt(st.line, st.pos, items)
    ensures ReadArray(max, slot, st, names).values ==
      if 0 < |items| <= max then st.values[slot := CopyPins(st.values[slot], PinsOf(names, items))] else st.values
  {
    ItemsAtStart(st.line, st.pos, items);
    ScanStops(st.line, st.pos, MaxLineLength, Blanks, st.pos);
    SearchItems(max, slot, st, [], names, items);
    assert [] + PinsOf(names, items) == PinsOf(names, items);
  }

  /** A stored `key + sep + "{" + ArrayText(items) + rest` line has the array layout, with the key where it was written. */
  lemma StoredArrayLayout(b: seq<char>, key: string, sep: string, items: seq<string>, rest: string)
    requires |key + sep + "{" + ArrayText(items) + rest| < |b| == MaxLineLength
    requires KeyText(key) && SeparatorText(sep) && forall i :: 0 <= i < |items| ==> Item(items[i])
    ensures var t := Stored(b, key + sep + "{" + ArrayText(items) + rest);
      ArrayLayout(t, |key + sep + "{" + ArrayText(items) + rest|, |key|, |key| + |sep|, items) && t[0..|key|] == key
  {
    var a := ArrayText(items);
    var t := Stored(b, key + sep + "{" + a + rest);
    StoredParts(b, key + sep, "{", a, rest);
    ArrayLayoutOfParts(t, |key + sep + "{" + a + rest|, key, sep, items);
  }

  lemma ArrayLayoutOfParts(t: seq<char>, len: nat, key: string, sep: string, items: seq<string>)
    requires |t| == MaxLineLength && len < MaxLineLength && t[len] == NUL
    requires KeyText(key) && SeparatorText(sep) && forall i :: 0 <= i < |items| ==> Item(items[i])
    requires var v := |key| + |sep|; v + 1 + |ArrayText(items)| <= len
    requires t[..|key + sep|] == key + sep
    requires var v := |key| + |sep|; forall i :: v <= i < v + 1 ==> t[i] == "{"[i - v]
    requires var p := |key| + |sep| + 1; forall i :: p <= i < p + |ArrayText(items)| ==> t[i] == ArrayText(items)[i - p]
    ensures ArrayLayout(t, len, |key|, |key| + |sep|, items) && t[0..|key|] == key
  {
    var v := |key| + |sep|;
    KeyAndSeparators(t, key, sep);
    ArrayTextItems(t, v + 1, items);
    assert t[v] == '{';
  }

  /** A buffer that starts with a key and separators. */
  lemma KeyAndSeparators(t: seq<char>, key: string, sep: string)
    requires |key| + |sep| <= |t| && t[..|key| + |sep|] == key + sep
    requires KeyText(key) && SeparatorText(sep)
    ensures t[0..|key|] == key && t[0] != '/' && t[0] != '#'
    ensures forall i :: 0 <= i < |key| ==> Continues(KeyChars, t[i])
    ensures forall i :: |key| <= i < |key| + |sep| ==> Continues(Separators, t[i])
  {
    var n := |key| + |sep|;
    forall i | 0 <= i < n
      ensures t[i] == (key + sep)[i]
    {
      assert t[..n][i] == t[i];
    }
    assert t[0..|key|] == key;
  }
}
