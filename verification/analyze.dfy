/**
 * The `/api/analyze` classifier: for a word, the last prefix, suffix and root
 * entry of the affix list that fits it.
 */
module AffixClassifier {
  import opened Wrappers
  import opened Text

  /**
   * An entry of the affix list. `kind` is the entry's "type" field; `fields`
   * stands for the entry's remaining JSON fields, returned untouched.
   */
  datatype RootItem = RootItem(affix: string, kind: string, fields: map<string, string>)

  /** The response: the word as given, and one optional entry per slot. */
  datatype Analysis = Analysis(word: string, prefix: Option<RootItem>, suffix: Option<RootItem>, root: Option<RootItem>)

  /** `item` may fill slot `slot` for `word`: a prefix starts it, a suffix ends it, a root occurs in it. */
  predicate Fits(item: RootItem, word: string, slot: string) {
    && item.kind == slot
    && (|| (slot == "prefix" && StartsWith(word, item.affix))
        || (slot == "suffix" && EndsWith(word, item.affix))
        || (slot == "root" && Contains(word, item.affix)))
  }

  /** The last entry of `items` that fits `slot`, if any. */
  function LastFit(items: seq<RootItem>, word: string, slot: string): (r: Option<RootItem>)
  {
    if items == [] then None
    else if Fits(items[|items| - 1], word, slot) then Some(items[|items| - 1])
    else LastFit(items[..|items| - 1], word, slot)
  }

  /**
   * A filled slot holds an entry of the list, of the slot's kind, that fits
   * the word; a slot stays empty exactly when no entry fits it.
   */
  lemma {:induction false} LastFitSound(items: seq<RootItem>, word: string, slot: string)
    ensures var r := LastFit(items, word, slot);
            && (r.Some? ==> r.value in items && r.value.kind == slot && Fits(r.value, word, slot))
            && (r.None? <==> forall it :: it in items ==> !Fits(it, word, slot))
  {
    if items != [] {
      var n := |items| - 1;
      assert items == items[..n] + [items[n]];
      LastFitSound(items[..n], word, slot);
    }
  }

  /** What `analyze(word)` answers for the affix list `items`. */
  function Classify(word: string, items: seq<RootItem>): (a: Analysis)
    ensures a.word == word
  {
    Analysis(word, LastFit(items, word, "prefix"), LastFit(items, word, "suffix"), LastFit(items, word, "root"))
  }

  /**
   * `analyze`: one pass over the list; each fitting entry overwrites its
   * slot, so the last fitting entry of each kind wins.
   */
  method Analyze(word: string, items: seq<RootItem>) returns (result: Analysis)
    ensures result == Classify(word, items)
  {
    result := Analysis(word, None, None, None);
    var i := 0;
    while i < |items|
      invariant 0 <= i <= |items|
      invariant result == Classify(word, items[..i])
    {
      var item := items[i];
      var affix := item.affix;
      var t := item.kind;
      assert items[..i + 1][..i] == items[..i];
      if t == "prefix" && StartsWith(word, affix) {
        result := result.(prefix := Some(item));
      } else if t == "suffix" && EndsWith(word, affix) {
        result := result.(suffix := Some(item));
      } else if t == "root" && Contains(word, affix) {
        result := result.(root := Some(item));
      }
      i := i + 1;
    }
    assert items[..i] == items;
  }

  /** The entry in a slot is the LAST fitting one: no fitting entry of that kind follows it. */
  lemma {:induction false} LastFitIsLast(items: seq<RootItem>, word: string, slot: string)
    requires LastFit(items, word, slot).Some?
    ensures exists j :: 0 <= j < |items| && items[j] == LastFit(items, word, slot).value
                        && forall l :: j < l < |items| ==> !Fits(items[l], word, slot)
  {
    var n := |items| - 1;
    if Fits(items[n], word, slot) {
      assert items[n] == LastFit(items, word, slot).value;
    } else {
      LastFitIsLast(items[..n], word, slot);
      var j :| 0 <= j < n && items[..n][j] == LastFit(items[..n], word, slot).value
               && forall l :: j < l < n ==> !Fits(items[..n][l], word, slot);
      assert items[j] == LastFit(items, word, slot).value;
      assert forall l :: j < l < n ==> items[..n][l] == items[l];
    }
  }

  /** The entries of `items` whose kind is `slot`, in order. */
  function OfKind(items: seq<RootItem>, slot: string): (r: seq<RootItem>)
  {
    if items == [] then []
    else
      OfKind(items[..|items| - 1], slot) + (if items[|items| - 1].kind == slot then [items[|items| - 1]] else [])
  }

  /** A slot depends only on the entries of its own kind. */
  lemma {:induction false} LastFitOwnKind(items: seq<RootItem>, word: string, slot: string)
    ensures LastFit(items, word, slot) == LastFit(OfKind(items, slot), word, slot)
  {
    if items != [] {
      var n := |items| - 1;
      var init := items[..n];
      LastFitOwnKind(init, word, slot);
      if items[n].kind == slot {
        var r := OfKind(init, slot) + [items[n]];
        assert OfKind(items, slot) == r;
        assert r[..|r| - 1] == OfKind(init, slot);
        if !Fits(items[n], word, slot) {
          assert LastFit(r, word, slot) == LastFit(OfKind(init, slot), word, slot);
          assert LastFit(items, word, slot) == LastFit(init, word, slot);
        }
      } else {
        assert OfKind(items, slot) == OfKind(init, slot) + [];
        assert OfKind(init, slot) + [] == OfKind(init, slot);
        assert LastFit(items, word, slot) == LastFit(init, word, slot);
      }
    }
  }

  lemma {:induction false} OfKindAppend(a: seq<RootItem>, b: seq<RootItem>, slot: string)
    ensures OfKind(a + b, slot) == OfKind(a, slot) + OfKind(b, slot)
    decreases |b|
  {
    if b == [] {
      assert a + b == a;
    } else {
      var n := |b| - 1;
      assert (a + b)[..|a + b| - 1] == a + b[..n];
      OfKindAppend(a, b[..n], slot);
    }
  }

  /**
   * An entry whose type is none of "prefix", "suffix", "root" never changes
   * the answer, wherever it stands in the list.
   */
  lemma UnknownKindIgnored(word: string, a: seq<RootItem>, x: RootItem, b: seq<RootItem>)
    requires x.kind != "prefix" && x.kind != "suffix" && x.kind != "root"
    ensures Classify(word, a + [x] + b) == Classify(word, a + b)
  {
    forall slot | slot in ["prefix", "suffix", "root"]
      ensures LastFit(a + [x] + b, word, slot) == LastFit(a + b, word, slot)
    {
      LastFitOwnKind(a + [x] + b, word, slot);
      LastFitOwnKind(a + b, word, slot);
      OfKindAppend(a + [x], b, slot);
      OfKindAppend(a, [x], slot);
      OfKindAppend(a, b, slot);
      assert x.kind != slot;
      assert [x][..0] == [];
      assert OfKind([x], slot) == OfKind([], slot) + [];
      assert OfKind(a + [x] + b, slot) == OfKind(a, slot) + OfKind(b, slot);
    }
  }

  /**
   * Entries of other kinds never change a slot: adding or removing entries
   * whose kind is not `slot` leaves that slot as it was.
   */
  lemma SlotsIndependent(word: string, items: seq<RootItem>, others: seq<RootItem>, slot: string)
    requires OfKind(items, slot) == OfKind(others, slot)
    ensures LastFit(items, word, slot) == LastFit(others, word, slot)
  {
    LastFitOwnKind(items, word, slot);
    LastFitOwnKind(others, word, slot);
  }
}
