/**
 * Watch-list text handling shared by the alert engine and the dashboard:
 * cutting the stored text into symbols, and the exchange-suffix rule that
 * turns a symbol into the ticker the market-data provider is asked for.
 */
module Symbols {
  import opened Text

  /** Every line of `lines`, stripped. */
  function StrippedLines(lines: seq<string>): set<string> {
    set j | 0 <= j < |lines| :: Strip(lines[j])
  }

  /** `[l.strip() for l in lines if l.strip()]`. */
  function StrippedNonBlank(lines: seq<string>): (syms: seq<string>)
    ensures |syms| <= |lines|
    ensures forall k :: 0 <= k < |syms| ==> syms[k] != "" && Stripped(syms[k])
    decreases |lines|
  {
    if lines == [] then []
    else
      var init := StrippedNonBlank(lines[..|lines| - 1]);
      var s := Strip(lines[|lines| - 1]);
      if s != "" then init + [s] else init
  }

  lemma StrippedLinesSnoc(lines: seq<string>)
    requires lines != []
    ensures StrippedLines(lines) == StrippedLines(lines[..|lines| - 1]) + {Strip(lines[|lines| - 1])}
  {
    var n := |lines|;
    var init := lines[..n - 1];
    forall x | x in StrippedLines(lines) ensures x in StrippedLines(init) + {Strip(lines[n - 1])} {
      var j :| 0 <= j < n && Strip(lines[j]) == x;
      if j < n - 1 {
        assert Strip(init[j]) == x;
      }
    }
    forall x | x in StrippedLines(init) ensures x in StrippedLines(lines) {
      var j :| 0 <= j < n - 1 && Strip(init[j]) == x;
      assert Strip(lines[j]) == x;
    }
  }

  /** A symbol is kept exactly when it is the stripped form of some line and not blank. */
  lemma {:induction false} StrippedNonBlankMember(lines: seq<string>, x: string)
    ensures x in StrippedNonBlank(lines) <==> x in StrippedLines(lines) && x != ""
  {
    if lines != [] {
      StrippedNonBlankMember(lines[..|lines| - 1], x);
      StrippedLinesSnoc(lines);
    }
  }

  /** Lines without line breaks give symbols without line breaks. */
  lemma {:induction false} StrippedNonBlankNoBreaks(lines: seq<string>)
    requires forall j :: 0 <= j < |lines| ==> NoBreaks(lines[j])
    ensures forall k :: 0 <= k < |StrippedNonBlank(lines)| ==> NoBreaks(StrippedNonBlank(lines)[k])
  {
    if lines != [] {
      var n := |lines|;
      StrippedNonBlankNoBreaks(lines[..n - 1]);
      StripNoBreaks(lines[n - 1]);
    }
  }

  /** The symbols of a stored watch list: its stripped, non-blank lines, in order. */
  function ParseSymbols(text: string): (syms: seq<string>)
    ensures forall k :: 0 <= k < |syms| ==> syms[k] != "" && Stripped(syms[k]) && NoBreaks(syms[k])
  {
    StrippedNonBlankNoBreaks(SplitLines(text));
    StrippedNonBlank(SplitLines(text))
  }

  /** A symbol is read from the text exactly when it is a line of it, stripped, and not blank. */
  lemma ParseSymbolsMember(text: string, x: string)
    ensures x in ParseSymbols(text) <==> x in StrippedLines(SplitLines(text)) && x != ""
  {
    StrippedNonBlankMember(SplitLines(text), x);
  }

  /** Lines that are already stripped and non-blank pass through unchanged. */
  lemma {:induction false} StrippedNonBlankOfStripped(xs: seq<string>)
    requires forall k :: 0 <= k < |xs| ==> xs[k] != "" && Stripped(xs[k])
    ensures StrippedNonBlank(xs) == xs
  {
    if xs != [] {
      StrippedNonBlankOfStripped(xs[..|xs| - 1]);
      StripOfStripped(xs[|xs| - 1]);
    }
  }

  /** A newline-joined list of stripped, non-blank symbols parses back to itself. */
  lemma ParseOfJoined(xs: seq<string>)
    requires forall k :: 0 <= k < |xs| ==> xs[k] != "" && Stripped(xs[k]) && NoBreaks(xs[k])
    ensures ParseSymbols(JoinLines(xs)) == xs
  {
    SplitJoin(xs);
    StrippedNonBlankOfStripped(xs);
  }

  /** A digit-leading symbol is a Tokyo listing (`s[0].isdigit()`). */
  predicate IsDomestic(sym: string)
    requires sym != ""
  {
    IsDigit(sym[0])
  }

  /** The ticker looked up for a symbol: Tokyo listings get the ".T" suffix. */
  function FetchName(sym: string): (t: string)
    requires sym != ""
    ensures t != "" && t[0] == sym[0]
    ensures |sym| <= |t| && t[..|sym|] == sym
    ensures IsDomestic(sym) <==> |t| == |sym| + 2
    ensures IsDomestic(sym) ==> t == sym + ".T"
    ensures !IsDomestic(sym) ==> t == sym
  {
    if IsDomestic(sym) then sym + ".T" else sym
  }

  /** A symbol the engine downloads at all: digit- or letter-leading. */
  predicate Fetchable(sym: string)
    requires sym != ""
  {
    IsDigit(sym[0]) || IsAlpha(sym[0])
  }

  /** `symbols_to_fetch`: suffixed Tokyo symbols plus letter-leading symbols as they are. */
  function FetchSet(all: set<string>): (r: set<string>)
    requires forall s :: s in all ==> s != ""
    ensures forall s :: s in all ==> (FetchName(s) in r <==> Fetchable(s))
    ensures forall t :: t in r ==> t != "" && exists s :: s in all && Fetchable(s) && FetchName(s) == t
  {
    var japan := set s | s in all && IsDigit(s[0]) :: s + ".T";
    var us := set s | s in all && IsAlpha(s[0]);
    assert forall t :: t in japan ==> t != "" && IsDigit(t[0]) by {
      forall t | t in japan ensures t != "" && IsDigit(t[0]) {
        var s :| s in all && IsDigit(s[0]) && t == s + ".T";
        assert t[0] == s[0];
      }
    }
    assert forall s :: s in all && !Fetchable(s) ==> FetchName(s) !in japan + us by {
      forall s | s in all && !Fetchable(s) ensures FetchName(s) !in japan + us {
        assert FetchName(s) == s;
      }
    }
    japan + us
  }

  /** The union of the symbol lists (`all_symbols.update(syms)` for every user). */
  function AllSymbols(lists: seq<seq<string>>): (all: set<string>)
    ensures forall s :: s in all <==> exists k :: 0 <= k < |lists| && s in lists[k]
    decreases |lists|
  {
    if lists == [] then {}
    else
      var last := lists[|lists| - 1];
      AllSymbols(lists[..|lists| - 1]) + set k | 0 <= k < |last| :: last[k]
  }
}
