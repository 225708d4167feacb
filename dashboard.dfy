/**
 * The POST branch of the dashboard: the submitted watch list is cleaned
 * (lines stripped, blanks dropped, duplicates removed keeping the first
 * occurrence), checked against the per-role cap, and saved together with the
 * e-mail address and the notification flag.
 */
module Dashboard {
  import opened Wrappers
  import opened Text
  import opened Symbols
  import opened Models

  /** `xs` without repetitions, each element kept at its first occurrence. */
  function Dedup(xs: seq<string>): (r: seq<string>)
    ensures Distinct(r)
    ensures forall x :: x in r <==> x in xs
    decreases |xs|
  {
    if xs == [] then []
    else
      var init := Dedup(xs[..|xs| - 1]);
      var x := xs[|xs| - 1];
      assert forall y :: y in xs <==> y in xs[..|xs| - 1] || y == x by {
        assert xs == xs[..|xs| - 1] + [x];
      }
      if x in init then init else init + [x]
  }

  /** Index of the first occurrence of `x` in `xs`. */
  function FirstIndex(xs: seq<string>, x: string): (i: nat)
    requires x in xs
    ensures i < |xs| && xs[i] == x && x !in xs[..i]
  {
    if xs[0] == x then 0 else 1 + FirstIndex(xs[1..], x)
  }

  /** Deduplication keeps the order of first occurrence. */
  lemma {:induction false} DedupFirstOccurrenceOrder(xs: seq<string>, i: nat, j: nat)
    requires i < j < |Dedup(xs)|
    ensures FirstIndex(xs, Dedup(xs)[i]) < FirstIndex(xs, Dedup(xs)[j])
    decreases |xs|
  {
    var n := |xs|;
    var init := xs[..n - 1];
    var d := Dedup(init);
    var r := Dedup(xs);
    assert xs == init + [xs[n - 1]];
    FirstIndexOfPrefix(init, xs[n - 1], r[i]);
    if j < |d| {
      assert r[j] == d[j] && r[i] == d[i];
      DedupFirstOccurrenceOrder(init, i, j);
      FirstIndexOfPrefix(init, xs[n - 1], r[j]);
    } else {
      assert r[j] == xs[n - 1] && r[j] !in init;
      assert r[i] == d[i] && r[i] in init;
    }
  }

  lemma {:induction false} FirstIndexOfPrefix(xs: seq<string>, y: string, x: string)
    requires x in xs
    ensures FirstIndex(xs + [y], x) == FirstIndex(xs, x)
  {
    if xs[0] != x {
      assert (xs + [y])[1..] == xs[1..] + [y];
      FirstIndexOfPrefix(xs[1..], y, x);
    }
  }

  /** A list with no repetitions is its own deduplication. */
  lemma {:induction false} DedupOfDistinct(xs: seq<string>)
    requires Distinct(xs)
    ensures Dedup(xs) == xs
  {
    if xs != [] {
      var init := xs[..|xs| - 1];
      DedupOfDistinct(init);
      assert xs[|xs| - 1] !in init;
    }
  }

  /** The list saved for a submitted text: its stripped, non-blank lines, deduplicated. */
  function Clean(raw: string): (cleaned: seq<string>)
    ensures Distinct(cleaned)
    ensures forall k :: 0 <= k < |cleaned| ==>
              cleaned[k] != "" && Stripped(cleaned[k]) && NoBreaks(cleaned[k])
    ensures forall x :: x in cleaned <==> x in StrippedLines(SplitLines(raw)) && x != ""
  {
    var syms := ParseSymbols(raw);
    var cleaned := Dedup(syms);
    assert forall k :: 0 <= k < |cleaned| ==> cleaned[k] in syms;
    assert forall x :: x in cleaned <==> x in StrippedLines(SplitLines(raw)) && x != "" by {
      forall x ensures x in cleaned <==> x in StrippedLines(SplitLines(raw)) && x != "" {
        ParseSymbolsMember(raw, x);
      }
    }
    cleaned
  }

  /** The set of elements of `xs` (the `seen` set of the cleaning loop). */
  function Members(xs: seq<string>): set<string> {
    set k | 0 <= k < |xs| :: xs[k]
  }

  /**
   * The cleaning loop: each line of the submitted text is stripped and kept
   * if it is not blank and not already kept, with a `seen` set for the test.
   */
  method CleanSymbols(raw: string) returns (cleaned: seq<string>)
    ensures cleaned == Clean(raw)
  {
    var lines := SplitLines(raw);
    cleaned := [];
    var seen: set<string> := {};
    for i := 0 to |lines|
      invariant cleaned == Dedup(StrippedNonBlank(lines[..i]))
      invariant seen == Members(cleaned)
    {
      var symbol := Strip(lines[i]);
      CleanStep(lines, i, cleaned, seen);
      if symbol != "" && symbol !in seen {
        cleaned := cleaned + [symbol];
        seen := seen + {symbol};
      }
    }
    assert lines[..|lines|] == lines;
  }

  /** One more line: its stripped form is appended, and added to `seen`, exactly when it is non-blank and new. */
  lemma CleanStep(lines: seq<string>, i: nat, cleaned: seq<string>, seen: set<string>)
    requires i < |lines|
    requires cleaned == Dedup(StrippedNonBlank(lines[..i])) && seen == Members(cleaned)
    ensures var s := Strip(lines[i]);
      var keep := s != "" && s !in seen;
      && Dedup(StrippedNonBlank(lines[..i + 1])) == (if keep then cleaned + [s] else cleaned)
      && (if keep then seen + {s} else seen) == Members(if keep then cleaned + [s] else cleaned)
  {
    var s := Strip(lines[i]);
    var before := StrippedNonBlank(lines[..i]);
    StrippedNonBlankSnoc(lines, i);
    MembersSnoc(cleaned, s);
    if s != "" {
      DedupSnoc(before, s);
    }
  }

  lemma StrippedNonBlankSnoc(lines: seq<string>, i: nat)
    requires i < |lines|
    ensures StrippedNonBlank(lines[..i + 1]) ==
              var s := Strip(lines[i]);
              if s != "" then StrippedNonBlank(lines[..i]) + [s] else StrippedNonBlank(lines[..i])
  {
    assert lines[..i + 1][..i] == lines[..i];
  }

  lemma MembersSnoc(xs: seq<string>, x: string)
    ensures x in Members(xs) <==> x in xs
    ensures Members(xs + [x]) == Members(xs) + {x}
  {
    var ys := xs + [x];
    forall y | y in Members(ys) ensures y in Members(xs) + {x} {
      var k :| 0 <= k < |ys| && ys[k] == y;
      if k < |xs| {
        assert xs[k] == y;
      }
    }
    forall y | y in Members(xs) ensures y in Members(ys) {
      var k :| 0 <= k < |xs| && xs[k] == y;
      assert ys[k] == y;
    }
    assert ys[|xs|] == x;
  }

  lemma DedupSnoc(xs: seq<string>, x: string)
    ensures Dedup(xs + [x]) == if x in Dedup(xs) then Dedup(xs) else Dedup(xs) + [x]
  {
    assert (xs + [x])[..|xs|] == xs;
  }

  /** Cleaning the stored list again changes nothing. */
  lemma CleanIdempotent(raw: string)
    ensures Clean(JoinLines(Clean(raw))) == Clean(raw)
  {
    var c := Clean(raw);
    ParseOfJoined(c);
    DedupOfDistinct(c);
  }

  /** Duplicates are found by exact text: symbols differing only in case are both kept. */
  lemma CaseSensitiveDedup()
    ensures Dedup(["aapl", "AAPL"]) == ["aapl", "AAPL"]
  {
    assert ["aapl", "AAPL"][..1] == ["aapl"];
  }

  /** The most symbols a role may save. */
  function MaxSymbols(role: string): (cap: nat)
    ensures role == "admin" ==> cap == 10000
    ensures role != "admin" ==> cap == 100
  {
    if role == "admin" then 10000 else 100
  }

  /** The reply to the POST request. */
  datatype Response =
    | BadRequest                          // a form field the handler reads is missing
    | OverLimit(count: nat, limit: nat)   // the warning page: too many symbols
    | Saved                               // redirect back to the dashboard

  /**
   * The POST branch. A list longer than the role's cap is refused before any
   * field is assigned; a list within the cap is saved with the e-mail address
   * and with notifications on exactly when the "notify" checkbox was sent.
   * A missing form field aborts the request and the session is not committed.
   * After a save, the row the alert engine reads for this record parses back
   * to exactly the cleaned list.
   */
  method Submit(user: User, form: map<string, string>) returns (resp: Response)
    modifies user
    ensures "symbols" !in form ==> resp == BadRequest && unchanged(user)
    ensures "symbols" in form && |Clean(form["symbols"])| > MaxSymbols(old(user.role)) ==>
              resp == OverLimit(|Clean(form["symbols"])|, MaxSymbols(old(user.role))) && unchanged(user)
    ensures "symbols" in form && |Clean(form["symbols"])| <= MaxSymbols(old(user.role)) && "email" !in form ==>
              resp == BadRequest && unchanged(user)
    ensures "symbols" in form && |Clean(form["symbols"])| <= MaxSymbols(old(user.role)) && "email" in form ==>
              && resp == Saved
              && user.symbols == Some(JoinLines(Clean(form["symbols"])))
              && user.email == Some(form["email"])
              && user.notifyEnabled == ("notify" in form)
              && user.role == old(user.role) && user.username == old(user.username)
              && ParseSymbols(user.Row().symbols.value) == Clean(form["symbols"])
  {
    if "symbols" !in form {
      return BadRequest;
    }
    var cleaned := CleanSymbols(form["symbols"]);
    var maxSymbols := if user.role == "admin" then 10000 else 100;
    if |cleaned| > maxSymbols {
      return OverLimit(|cleaned|, maxSymbols);
    }
    var pendingSymbols := JoinLines(cleaned);
    if "email" !in form {
      return BadRequest;
    }
    user.symbols := Some(pendingSymbols);
    user.email := Some(form["email"]);
    user.notifyEnabled := "notify" in form;
    StoredListReadsBack(form["symbols"]);
    resp := Saved;
  }

  /** The list a within-cap submission stores is the cleaned list, read back unchanged. */
  lemma StoredListReadsBack(raw: string)
    ensures ParseSymbols(JoinLines(Clean(raw))) == Clean(raw)
  {
    ParseOfJoined(Clean(raw));
  }
}
