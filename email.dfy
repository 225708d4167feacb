/**
 * The alert e-mail body of the alert engine (`format_email_body`).
 *
 * Results are split into a Tokyo section (digit-leading symbols) and a US
 * section, each keeping the order of the results, and every result becomes a
 * four-line entry: the symbol, the cross text with its buy/sell reading, the
 * company name and the quote URL. The company-name lookup and the send time
 * are inputs.
 */
module Email {
  import opened Wrappers
  import opened Text
  import opened Signal
  import opened Symbols

  /** What `yf.Ticker(t).info` gives: the "longName" entry of the info dict, or an exception. */
  datatype NameInfo = Info(longName: Option<string>) | LookupFailed

  /** The company name printed in an entry, with the two fallbacks. */
  function CompanyName(info: NameInfo): (name: string)
    ensures info.Info? && info.longName.Some? ==> name == info.longName.value
    ensures info == Info(None) ==> name == "名称不明"
    ensures info.LookupFailed? ==> name == "名称取得失敗"
  {
    match info
    case Info(Some(name)) => name
    case Info(None) => "名称不明"
    case LookupFailed => "名称取得失敗"
  }

  const GoldenWord: string := "ゴールデンクロス"
  const BuyWord: string := "買い気配"
  const SellWord: string := "売り気配"

  /** The reading of a cross text: a buy signal whenever it mentions a golden cross. */
  function SignalWord(crossType: string): (w: string)
    ensures w == BuyWord || w == SellWord
    ensures w == BuyWord <==> Contains(crossType, GoldenWord)
  {
    if Contains(crossType, GoldenWord) then BuyWord else SellWord
  }

  /** The reading is "buy" for every golden cross and "sell" for every dead cross. */
  lemma SignalWordOfCross(c: Cross)
    ensures SignalWord(CrossText(c)) == if c.kind == Golden then BuyWord else SellWord
  {
    var level := if c.strength == Strong then "強" else "弱";
    if c.kind == Golden {
      assert CrossText(c) == GoldenWord + ("（" + level + "）");
      assert StartsWith(CrossText(c), GoldenWord);
    } else {
      assert CrossText(c) == "デッドクロス（" + level + "）";
      assert GoldenWord[0] !in CrossText(c);
      NotContainsWithoutHead(CrossText(c), GoldenWord);
    }
  }

  const QuoteUrl: string := "https://finance.yahoo.co.jp/quote/"

  /** The quote page of a symbol, addressed by the same suffixed ticker that is downloaded. */
  function Url(sym: string): (u: string)
    requires sym != ""
    ensures IsDomestic(sym) ==> u == QuoteUrl + sym + ".T"
    ensures !IsDomestic(sym) ==> u == QuoteUrl + sym
  {
    QuoteUrl + FetchName(sym)
  }

  /** The four-line entry of one result. */
  function Entry(sym: string, crossType: string, name: string): (e: string)
    requires sym != ""
    ensures sym <= e
  {
    sym + "\n" + crossType + "→" + SignalWord(crossType) + "\n" + name + "\n" + Url(sym) + "\n"
  }

  /** The entry of one result, with its company name looked up by suffixed ticker. */
  function EntryOf(r: (string, string), lookup: string -> NameInfo): string
    requires r.0 != ""
  {
    Entry(r.0, r.1, CompanyName(lookup(FetchName(r.0))))
  }

  predicate NonEmptySymbols(results: seq<(string, string)>) {
    forall k :: 0 <= k < |results| ==> results[k].0 != ""
  }

  /** The results of one market (`domestic`: the Tokyo section), in their original order. */
  function Group(results: seq<(string, string)>, domestic: bool): (g: seq<(string, string)>)
    requires NonEmptySymbols(results)
    ensures |g| <= |results|
    ensures forall k :: 0 <= k < |g| ==> g[k] in results && g[k].0 != "" && IsDomestic(g[k].0) == domestic
    decreases |results|
  {
    if results == [] then []
    else
      var init := Group(results[..|results| - 1], domestic);
      var r := results[|results| - 1];
      if IsDomestic(r.0) == domestic then init + [r] else init
  }

  /** The entries of one section, in order. */
  function Entries(g: seq<(string, string)>, lookup: string -> NameInfo): (es: seq<string>)
    requires NonEmptySymbols(g)
    ensures |es| == |g|
    ensures forall k :: 0 <= k < |es| ==> g[k].0 <= es[k]
  {
    seq(|g|, k requires 0 <= k < |g| => EntryOf(g[k], lookup))
  }

  const JpTitle: string := "国内株式\n"
  const UsTitle: string := "米国株式\n"

  /** The first line of the body: the send time. */
  function Header(timestamp: string): (h: string)
    ensures h != [] && !IsSpace(h[0]) && h[|h| - 1] == '\n'
  {
    "通知時刻（日本時間）: " + timestamp + "\n"
  }

  /** Entry text that does not start with whitespace, as every entry of a stripped symbol does. */
  predicate Solid(es: seq<string>) {
    es != [] && es[0] != "" && !IsSpace(es[0][0])
  }

  /** The text `format_email_body` strips: header, blank line, then the non-empty sections. */
  function Unstripped(timestamp: string, jp: seq<string>, us: seq<string>): string {
    var head := Header(timestamp) + "\n";
    var withJp := if jp != [] then head + JpTitle + JoinLines(jp) + "\n" else head;
    if us != [] then withJp + UsTitle + JoinLines(us) else withJp
  }

  /**
   * The body built from the two sections: the header line and a blank line,
   * then the Tokyo section if it has entries, then the US section if it has
   * entries, the whole stripped at both ends.
   */
  function Assemble(timestamp: string, jp: seq<string>, us: seq<string>): (body: string)
    ensures Stripped(body)
  {
    Strip(Unstripped(timestamp, jp, us))
  }

  /** The body starts with the header, so stripping only cuts at the end. */
  lemma AssembleIsPrefix(timestamp: string, jp: seq<string>, us: seq<string>)
    ensures Header(timestamp) + "\n" <= Unstripped(timestamp, jp, us)
    ensures Assemble(timestamp, jp, us) <= Unstripped(timestamp, jp, us)
  {
    var full := Unstripped(timestamp, jp, us);
    var head := Header(timestamp) + "\n";
    if jp != [] {
      assert full == head + (JpTitle + JoinLines(jp) + "\n" + (if us != [] then UsTitle + JoinLines(us) else ""));
    } else if us != [] {
      assert full == head + (UsTitle + JoinLines(us));
    }
    assert full[0] == Header(timestamp)[0];
    StripIsPrefix(full);
  }

  /**
   * The layout of the body: it opens with the header; the Tokyo section, when
   * it has entries, comes right after the blank line; the US section comes
   * right after the Tokyo section, or right after the blank line when there
   * is no Tokyo entry. A section title appears there only for a section with
   * entries, and with no US entry the body ends inside the Tokyo section.
   */
  lemma AssembleLayout(timestamp: string, jp: seq<string>, us: seq<string>)
    ensures Solid(jp) ==> Header(timestamp) + "\n" + JpTitle <= Assemble(timestamp, jp, us)
    ensures jp == [] && Solid(us) ==> Header(timestamp) + "\n" + UsTitle <= Assemble(timestamp, jp, us)
    ensures Solid(jp) && Solid(us) ==>
              Header(timestamp) + "\n" + JpTitle + JoinLines(jp) + "\n" + UsTitle <= Assemble(timestamp, jp, us)
    ensures Header(timestamp) + "\n" + JpTitle <= Assemble(timestamp, jp, us) ==> jp != []
    ensures Header(timestamp) + "\n" + UsTitle <= Assemble(timestamp, jp, us) ==> jp == [] && us != []
    ensures jp != [] && us == [] ==> Assemble(timestamp, jp, us) <= Header(timestamp) + "\n" + JpTitle + JoinLines(jp)
  {
    if Solid(jp) {
      JpSectionFirst(timestamp, jp, us);
    }
    if jp == [] && Solid(us) {
      UsSectionFirst(timestamp, us);
    }
    if Solid(jp) && Solid(us) {
      UsSectionAfterJp(timestamp, jp, us);
    }
    JpTitleOnlyForEntries(timestamp, jp, us);
    UsTitleOnlyForEntries(timestamp, jp, us);
    if jp != [] && us == [] {
      EndsInJpSection(timestamp, jp);
    }
  }

  lemma JpSectionFirst(timestamp: string, jp: seq<string>, us: seq<string>)
    requires Solid(jp)
    ensures Header(timestamp) + "\n" + JpTitle <= Assemble(timestamp, jp, us)
  {
    var full := Unstripped(timestamp, jp, us);
    JoinLinesHead(jp);
    var q := Header(timestamp) + "\n" + JpTitle;
    assert full == q + (JoinLines(jp) + "\n" + (if us != [] then UsTitle + JoinLines(us) else ""));
    StripKeepsPrefix(full, q);
  }

  lemma UsSectionFirst(timestamp: string, us: seq<string>)
    requires Solid(us)
    ensures Header(timestamp) + "\n" + UsTitle <= Assemble(timestamp, [], us)
  {
    var full := Unstripped(timestamp, [], us);
    JoinLinesHead(us);
    var q := Header(timestamp) + "\n" + UsTitle;
    assert full == q + JoinLines(us);
    StripKeepsPrefix(full, q);
  }

  lemma UsSectionAfterJp(timestamp: string, jp: seq<string>, us: seq<string>)
    requires Solid(jp) && Solid(us)
    ensures Header(timestamp) + "\n" + JpTitle + JoinLines(jp) + "\n" + UsTitle <= Assemble(timestamp, jp, us)
  {
    var full := Unstripped(timestamp, jp, us);
    JoinLinesHead(us);
    var q := Header(timestamp) + "\n" + JpTitle + JoinLines(jp) + "\n" + UsTitle;
    assert full == q + JoinLines(us);
    StripKeepsPrefix(full, q);
  }

  lemma EndsInJpSection(timestamp: string, jp: seq<string>)
    requires jp != []
    ensures Assemble(timestamp, jp, []) <= Header(timestamp) + "\n" + JpTitle + JoinLines(jp)
  {
    var x := Header(timestamp) + "\n" + JpTitle + JoinLines(jp);
    assert Unstripped(timestamp, jp, []) == x + "\n";
    assert x[0] == Header(timestamp)[0];
    StripDropsTrailingSpace(x, '\n');
  }

  /** A string differing from `full` at index `n` is no prefix of a prefix of `full`. */
  lemma NotPrefixAt(p: string, body: string, full: string, n: nat)
    requires body <= full && n < |p|
    requires n >= |full| || p[n] != full[n]
    ensures !(p <= body)
  {
  }

  /** The character right after the header's blank line is the Tokyo title's only with Tokyo entries. */
  lemma JpTitleOnlyForEntries(timestamp: string, jp: seq<string>, us: seq<string>)
    ensures Header(timestamp) + "\n" + JpTitle <= Assemble(timestamp, jp, us) ==> jp != []
  {
    if jp == [] {
      var head := Header(timestamp) + "\n";
      var full := Unstripped(timestamp, jp, us);
      var n := |head|;
      if us != [] {
        assert full == head + (UsTitle + JoinLines(us));
        assert full[n] == UsTitle[0];
      } else {
        assert full == head;
      }
      assert (head + JpTitle)[n] == JpTitle[0];
      AssembleIsPrefix(timestamp, jp, us);
      NotPrefixAt(head + JpTitle, Assemble(timestamp, jp, us), full, n);
    }
  }

  /** The US title follows the blank line only when there is no Tokyo entry and some US entry. */
  lemma UsTitleOnlyForEntries(timestamp: string, jp: seq<string>, us: seq<string>)
    ensures Header(timestamp) + "\n" + UsTitle <= Assemble(timestamp, jp, us) ==> jp == [] && us != []
  {
    if jp != [] || us == [] {
      var head := Header(timestamp) + "\n";
      var full := Unstripped(timestamp, jp, us);
      var n := |head|;
      if jp != [] {
        assert full == head + (JpTitle + JoinLines(jp) + "\n" + (if us != [] then UsTitle + JoinLines(us) else ""));
        assert full[n] == JpTitle[0];
      } else {
        assert full == head;
      }
      assert (head + UsTitle)[n] == UsTitle[0];
      AssembleIsPrefix(timestamp, jp, us);
      NotPrefixAt(head + UsTitle, Assemble(timestamp, jp, us), full, n);
    }
  }

  lemma JoinLinesHead(es: seq<string>)
    requires es != [] && es[0] != ""
    ensures JoinLines(es) != [] && JoinLines(es)[0] == es[0][0]
  {
  }

  /**
   * `format_email_body`: one pass over the results appends each entry to the
   * Tokyo or the US list, then the body is concatenated and stripped.
   */
  method FormatEmailBody(results: seq<(string, string)>, timestamp: string, lookup: string -> NameInfo)
    returns (body: string)
    requires NonEmptySymbols(results)
    ensures body == Assemble(timestamp, Entries(Group(results, true), lookup),
                             Entries(Group(results, false), lookup))
  {
    var jp, us := Sections(results, lookup);
    var header := "通知時刻（日本時間）: " + timestamp + "\n";
    body := header + "\n";
    if jp != [] {
      body := body + "国内株式\n" + JoinLines(jp) + "\n";
    }
    if us != [] {
      body := body + "米国株式\n" + JoinLines(us);
    }
    body := Strip(body);
  }

  /** The loop of `format_email_body`: each result's entry goes to its market's list. */
  method Sections(results: seq<(string, string)>, lookup: string -> NameInfo) returns (jp: seq<string>, us: seq<string>)
    requires NonEmptySymbols(results)
    ensures jp == Entries(Group(results, true), lookup)
    ensures us == Entries(Group(results, false), lookup)
  {
    jp := [];
    us := [];
    for i := 0 to |results|
      invariant jp == Entries(Group(results[..i], true), lookup)
      invariant us == Entries(Group(results[..i], false), lookup)
    {
      var (symbol, crossType) := results[i];
      var isJp := IsDigit(symbol[0]);
      var symbolWithSuffix := if isJp then symbol + ".T" else symbol;
      var name := CompanyName(lookup(symbolWithSuffix));
      var signal := if Contains(crossType, GoldenWord) then BuyWord else SellWord;
      var url := QuoteUrl + symbolWithSuffix;
      var line := symbol + "\n" + crossType + "→" + signal + "\n" + name + "\n" + url + "\n";
      assert line == EntryOf(results[i], lookup);
      SectionsStep(results, i, lookup);
      if isJp {
        jp := jp + [line];
      } else {
        us := us + [line];
      }
    }
    assert results[..|results|] == results;
  }

  lemma SectionsStep(results: seq<(string, string)>, i: nat, lookup: string -> NameInfo)
    requires NonEmptySymbols(results) && i < |results|
    ensures forall domestic: bool {:trigger Group(results[..i + 1], domestic)} ::
              Entries(Group(results[..i + 1], domestic), lookup) ==
              if IsDomestic(results[i].0) == domestic
              then Entries(Group(results[..i], domestic), lookup) + [EntryOf(results[i], lookup)]
              else Entries(Group(results[..i], domestic), lookup)
  {
    assert results[..i + 1][..i] == results[..i];
  }

  /** Some result belongs to the market (`domestic`: Tokyo). */
  predicate HasMarket(results: seq<(string, string)>, domestic: bool)
    requires NonEmptySymbols(results)
  {
    exists k :: 0 <= k < |results| && IsDomestic(results[k].0) == domestic
  }

  /** A section is non-empty exactly when some result belongs to its market. */
  lemma {:induction false} GroupNonEmpty(results: seq<(string, string)>, domestic: bool)
    requires NonEmptySymbols(results)
    ensures Group(results, domestic) != [] <==> HasMarket(results, domestic)
    decreases |results|
  {
    if results != [] {
      var n := |results|;
      var init := results[..n - 1];
      GroupNonEmpty(init, domestic);
      if HasMarket(init, domestic) {
        var k :| 0 <= k < n - 1 && IsDomestic(init[k].0) == domestic;
        assert results[k] == init[k];
      }
      if HasMarket(results, domestic) && IsDomestic(results[n - 1].0) != domestic {
        var k :| 0 <= k < n && IsDomestic(results[k].0) == domestic;
        assert init[k] == results[k];
      }
    }
  }

  /** The entries of a section whose first symbol is stripped start with a non-space. */
  lemma EntriesSolid(g: seq<(string, string)>, lookup: string -> NameInfo)
    requires NonEmptySymbols(g) && g != [] && Stripped(g[0].0)
    ensures Solid(Entries(g, lookup))
  {
    var es := Entries(g, lookup);
    assert g[0].0 <= es[0];
    assert es[0][0] == g[0].0[0];
  }

  /**
   * The layout of every body `format_email_body` builds from results with
   * stripped symbols: the Tokyo title follows the header exactly when some
   * result is a Tokyo symbol; the US title does exactly when none is and some
   * result is a US symbol; with both, the US section follows the Tokyo one;
   * with Tokyo results only, nothing follows the Tokyo section.
   */
  lemma BodyLayout(results: seq<(string, string)>, timestamp: string, lookup: string -> NameInfo)
    requires NonEmptySymbols(results)
    requires forall k :: 0 <= k < |results| ==> Stripped(results[k].0)
    ensures var jp := Entries(Group(results, true), lookup);
      var us := Entries(Group(results, false), lookup);
      var body := Assemble(timestamp, jp, us);
      var head := Header(timestamp) + "\n";
      && (head + JpTitle <= body <==> HasMarket(results, true))
      && (head + UsTitle <= body <==> !HasMarket(results, true) && HasMarket(results, false))
      && (HasMarket(results, true) && HasMarket(results, false) ==>
            head + JpTitle + JoinLines(jp) + "\n" + UsTitle <= body)
      && (HasMarket(results, true) && !HasMarket(results, false) ==>
            body <= head + JpTitle + JoinLines(jp))
  {
    SectionShape(results, true, lookup);
    SectionShape(results, false, lookup);
    AssembleLayout(timestamp, Entries(Group(results, true), lookup), Entries(Group(results, false), lookup));
  }

  /** A section has entries exactly when its market has results, and then it starts with a non-space. */
  lemma SectionShape(results: seq<(string, string)>, domestic: bool, lookup: string -> NameInfo)
    requires NonEmptySymbols(results)
    requires forall k :: 0 <= k < |results| ==> Stripped(results[k].0)
    ensures Entries(Group(results, domestic), lookup) != [] <==> HasMarket(results, domestic)
    ensures HasMarket(results, domestic) ==> Solid(Entries(Group(results, domestic), lookup))
  {
    var g := Group(results, domestic);
    GroupNonEmpty(results, domestic);
    if g != [] {
      assert g[0] in results;
      EntriesSolid(g, lookup);
    }
  }

  /** Every result lands in exactly one of the two sections. */
  lemma {:induction false} GroupPartition(results: seq<(string, string)>)
    requires NonEmptySymbols(results)
    ensures multiset(Group(results, true)) + multiset(Group(results, false)) == multiset(results)
    decreases |results|
  {
    if results != [] {
      var n := |results|;
      var init, r := results[..n - 1], results[n - 1];
      GroupPartition(init);
      assert results == init + [r];
      assert multiset(results) == multiset(init) + multiset{r};
      if IsDomestic(r.0) {
        assert Group(results, true) == Group(init, true) + [r];
        assert Group(results, false) == Group(init, false);
      } else {
        assert Group(results, true) == Group(init, true);
        assert Group(results, false) == Group(init, false) + [r];
      }
    }
  }

  /** Grouping keeps the order of the results: it distributes over concatenation. */
  lemma {:induction false} GroupAppend(a: seq<(string, string)>, b: seq<(string, string)>, domestic: bool)
    requires NonEmptySymbols(a) && NonEmptySymbols(b)
    ensures NonEmptySymbols(a + b)
    ensures Group(a + b, domestic) == Group(a, domestic) + Group(b, domestic)
    decreases |b|
  {
    if b != [] {
      var n := |b|;
      GroupAppend(a, b[..n - 1], domestic);
      assert (a + b)[..|a + b| - 1] == a + b[..n - 1];
    } else {
      assert a + b == a;
    }
  }
}
