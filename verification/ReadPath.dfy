/** From reply bytes to the refreshed cache: receiving pages that report an inverter's registers
    is what the reconcile model calls an answered read. */
module ReadPath {
  import opened Wrappers
  import opened Bytes
  import opened Codes
  import opened ProtectionRead
  import opened Quantisation
  import opened PageCache
  import opened Device
  import Reconcile
  import L2

  /** A reply that parses reports the registers on its page. */
  ghost predicate Faithful(fam: Family, f: seq<byte>, regs: Registers) {
    L2.ParseL2(f).Ok? ==> |f| >= 5 && Carries(fam, f, TableOf(fam, PageKey(fam, f)), regs)
  }

  /** The reply's page has the code. */
  predicate Shows(fam: Family, f: seq<byte>, c: Code) {
    L2.ParseL2(f).Ok? && |f| >= 5 && c in CodesOf(TableOf(fam, PageKey(fam, f)))
  }

  predicate Readable(fam: Family, regs: Registers, c: Code) {
    (fam == FamilyDS3 || fam == FamilyQS1) && c in regs && HasLongName(c) && ReadFieldOf(fam, c).Some?
  }

  lemma FrameReadsRegister(fam: Family, f: seq<byte>, regs: Registers, c: Code)
    requires Readable(fam, regs, c) && Faithful(fam, f, regs)
    ensures c in DecodeFrame(fam, f) <==> Shows(fam, f, c) && c in ReadAll(fam, regs)
    ensures c in DecodeFrame(fam, f) ==> DecodeFrame(fam, f)[c] == ReadAll(fam, regs)[c]
  {
    hide TableOf, HasLongName, ReadFieldOf, ReadAll, Carries, CodesOf, TableValues;
    if Shows(fam, f, c) {
      PageReadsRegisters(fam, f, regs, c);
    } else if L2.ParseL2(f).Ok? {
      TableValuesCodes(f, BaseOf(fam), TableOf(fam, PageKey(fam, f)));
    }
  }

  /** Whatever pages arrive, in whatever order and however often: the cache agrees, at every
      readable code one of them shows, with having read the registers directly, and keeps its
      old value at every other. */
  lemma {:induction false} PagesRefreshCache(fam: Family, fs: seq<seq<byte>>, regs: Registers, c: Code,
                                             known: map<Code, real>)
    requires Readable(fam, regs, c) && forall f :: f in fs ==> Faithful(fam, f, regs)
    ensures var now, direct := known + Fold(fam, fs), known + ReadAll(fam, regs);
            if exists f :: f in fs && Shows(fam, f, c)
            then (c in now <==> c in direct) && (c in now ==> now[c] == direct[c])
            else (c in now <==> c in known) && (c in now ==> now[c] == known[c])
  {
    hide Readable, Faithful, Shows, DecodeFrame, ReadAll;
    if fs != [] {
      var n := |fs| - 1;
      PagesRefreshCache(fam, fs[..n], regs, c, known);
      FrameReadsRegister(fam, fs[n], regs, c);
      assert fs == fs[..n] + [fs[n]];
    }
  }

  /** A code with a read field is shown on its own page, and on no other. */
  lemma ItsPageHasIt(fam: Family, c: Code)
    requires ReadFieldOf(fam, c).Some?
    ensures c in CodesOf(TableOf(fam, PageOf(fam, c)))
  {
    hide TableOf, PageOf, ReadFieldOf, FieldIndex;
    ReadFieldsAreOnPages(fam, c);
    var table, i := TableOf(fam, PageOf(fam, c)), FieldIndex(fam, c);
    assert table[i].code == c;
  }

  lemma NoOtherPageHasIt(fam: Family, key: byte, c: Code)
    requires c in CodesOf(TableOf(fam, key))
    ensures PageOf(fam, c) == key
  {
    hide TableOf, PageOf;
    var i :| 0 <= i < |TableOf(fam, key)| && TableOf(fam, key)[i].code == c;
    TableOnItsPage(fam, key, i);
  }

  lemma ParsedLength(f: seq<byte>)
    requires L2.ParseL2(f).Ok?
    ensures |f| >= 8
  {
  }

  /** A reply shows a readable code exactly when it is that code's page. */
  lemma ShowsIsItsPage(fam: Family, f: seq<byte>, c: Code)
    requires ReadFieldOf(fam, c).Some? && L2.ParseL2(f).Ok?
    ensures |f| >= 5 && (Shows(fam, f, c) <==> PageKey(fam, f) == PageOf(fam, c))
  {
    hide TableOf, PageOf, PageKey, ReadFieldOf, L2.ParseL2, CodesOf;
    ParsedLength(f);
    ItsPageHasIt(fam, c);
    if Shows(fam, f, c) { NoOtherPageHasIt(fam, PageKey(fam, f), c); }
  }

  /** A parsed reply of the page with the given key. */
  predicate IsPage(fam: Family, f: seq<byte>, k: byte) { L2.ParseL2(f).Ok? && |f| >= 5 && PageKey(fam, f) == k }

  /** `pages` says which pages are among the replies. */
  ghost predicate Arrived(fam: Family, fs: seq<seq<byte>>, pages: byte -> bool) {
    forall k: byte :: pages(k) <==> exists f :: f in fs && IsPage(fam, f, k)
  }

  /** Some reply shows a readable code exactly when its page is among the replies. */
  lemma ShownIffArrived(fam: Family, fs: seq<seq<byte>>, c: Code, pages: byte -> bool)
    requires ReadFieldOf(fam, c).Some? && Arrived(fam, fs, pages)
    ensures pages(PageOf(fam, c)) <==> exists f :: f in fs && Shows(fam, f, c)
  {
    hide PageOf, PageKey, ReadFieldOf, L2.ParseL2, CodesOf, TableOf;
    forall f | f in fs ensures Shows(fam, f, c) <==> IsPage(fam, f, PageOf(fam, c)) {
      if L2.ParseL2(f).Ok? { ShowsIsItsPage(fam, f, c); }
    }
  }

  /** What a read with some pages lost does to the cache at one code. */
  lemma ArrivingAt(fam: Family, regs: Registers, pages: byte -> bool, c: Code, known: map<Code, real>)
    ensures var direct, model := known + ReadAll(fam, regs), known + Reconcile.Arriving(fam, regs, pages);
            if pages(PageOf(fam, c))
            then (c in model <==> c in direct) && (c in model ==> model[c] == direct[c])
            else (c in model <==> c in known) && (c in model ==> model[c] == known[c])
  {
    hide PageOf, ReadAll;
  }

  lemma ReadableHasField(fam: Family, regs: Registers, c: Code)
    requires Readable(fam, regs, c)
    ensures ReadFieldOf(fam, c).Some?
  {
    hide ReadFieldOf;
  }

  /** A triggered read of the reconcile model is exactly this: the replies that arrive, some pages
      perhaps lost, take the cache at every readable code to where the model takes it. */
  lemma RepliesAreTriggeredRead(fam: Family, fs: seq<seq<byte>>, regs: Registers, c: Code, known: map<Code, real>,
                                pages: byte -> bool)
    requires Readable(fam, regs, c) && (forall f :: f in fs ==> Faithful(fam, f, regs)) && Arrived(fam, fs, pages)
    ensures var now, model := known + Fold(fam, fs), known + Reconcile.Arriving(fam, regs, pages);
            (c in now <==> c in model) && (c in now ==> now[c] == model[c])
  {
    hide *;
    ReadableHasField(fam, regs, c);
    PagesRefreshCache(fam, fs, regs, c, known);
    ShownIffArrived(fam, fs, c, pages);
    ArrivingAt(fam, regs, pages, c, known);
  }
}
