/**
 * The string operations that fund_app.py performs with regular expressions and
 * str.split: deleting every non-digit (re.sub(r'\D', '', s)), finding the first
 * match of r'"([^"]+)"', and splitting a record on ','.
 */
module TextScan {
  import opened Wrappers

  predicate IsDigit(c: char) {
    '0' <= c <= '9'
  }

  /** The digits of `s`, in their original order (re.sub(r'\D', '', s)). */
  function Digits(s: string): (r: string)
    ensures |r| <= |s|
    ensures forall i :: 0 <= i < |r| ==> IsDigit(r[i])
    ensures forall c :: c in r <==> c in s && IsDigit(c)
  {
    if s == [] then []
    else if IsDigit(s[0]) then [s[0]] + Digits(s[1..])
    else Digits(s[1..])
  }

  /** Deleting non-digits distributes over concatenation: each character is kept or dropped on its own. */
  lemma {:induction false} DigitsAppend(a: string, b: string)
    ensures Digits(a + b) == Digits(a) + Digits(b)
  {
    if a == [] {
      assert a + b == b;
    } else {
      assert (a + b)[1..] == a[1..] + b;
      DigitsAppend(a[1..], b);
    }
  }

  /** A string made only of digits is left as it is. */
  lemma {:induction false} DigitsOfDigits(s: string)
    requires forall i :: 0 <= i < |s| ==> IsDigit(s[i])
    ensures Digits(s) == s
  {
    if s != [] {
      DigitsOfDigits(s[1..]);
    }
  }

  /** Sanitising twice is sanitising once. */
  lemma DigitsIdempotent(s: string)
    ensures Digits(Digits(s)) == Digits(s)
  {
    DigitsOfDigits(Digits(s));
  }

  /** The result is empty exactly when the input holds no digit. */
  lemma {:induction false} DigitsEmpty(s: string)
    ensures Digits(s) == [] <==> forall i :: 0 <= i < |s| ==> !IsDigit(s[i])
  {
    if s != [] {
      DigitsEmpty(s[1..]);
      assert forall i :: 1 <= i < |s| ==> s[i] == s[1..][i - 1];
    }
  }

  /** s[i..j] is a span the pattern "([^"]+)" matches: quote, at least one non-quote, quote. */
  predicate QuotedSpan(s: string, i: int, j: int)
    requires 0 <= i < j < |s|
  {
    s[i] == '"' && s[j] == '"' && i + 1 < j &&
    forall k :: i < k < j ==> s[k] != '"'
  }

  /** The index of the first '"' at or after `k`, or |s| when there is none. */
  function NextQuote(s: string, k: nat): (j: nat)
    requires k <= |s|
    ensures k <= j <= |s|
    ensures j < |s| ==> s[j] == '"'
    ensures forall m :: k <= m < j ==> s[m] != '"'
    decreases |s| - k
  {
    if k == |s| || s[k] == '"' then k else NextQuote(s, k + 1)
  }

  /**
   * The span of the leftmost match of "([^"]+)" starting at or after `i`, as
   * the regex engine finds it: try each start position in turn.
   */
  function FindQuotedFrom(s: string, i: nat): (r: Option<(nat, nat)>)
    requires i <= |s|
    ensures r.Some? ==> i <= r.value.0 < r.value.1 < |s| && QuotedSpan(s, r.value.0, r.value.1)
    ensures r.Some? ==> forall k, j :: i <= k < r.value.0 && k < j < |s| ==> !QuotedSpan(s, k, j)
    ensures r.None? ==> forall k, j :: i <= k < j < |s| ==> !QuotedSpan(s, k, j)
    decreases |s| - i
  {
    if i == |s| then None
    else if s[i] == '"' && NextQuote(s, i + 1) < |s| && i + 1 < NextQuote(s, i + 1) then
      Some((i, NextQuote(s, i + 1)))
    else
      var r := FindQuotedFrom(s, i + 1);
      assert forall j :: i < j < |s| ==> !QuotedSpan(s, i, j) by {
        if s[i] == '"' {
          var n := NextQuote(s, i + 1);
          forall j | i < j < |s| ensures !QuotedSpan(s, i, j) {
            if n < j {
              assert i < n < j && s[n] == '"';
            }
          }
        }
      }
      r
  }

  /** The group of the first match of r'"([^"]+)"' in `s`, or None when re.search finds none. */
  function FirstQuoted(s: string): (r: Option<string>)
    ensures r.Some? ==> |r.value| > 0 && '"' !in r.value
    ensures r.None? ==> forall k, j :: 0 <= k < j < |s| ==> !QuotedSpan(s, k, j)
  {
    match FindQuotedFrom(s, 0)
    case None => None
    case Some((i, j)) => Some(s[i + 1..j])
  }

  /** Python's s.split(sep) with an explicit separator: always at least one field, possibly empty ones. */
  function Split(s: string, sep: char): (r: seq<string>)
    ensures |r| >= 1
    ensures forall i :: 0 <= i < |r| ==> sep !in r[i]
  {
    if s == [] then [[]]
    else
      var rest := Split(s[1..], sep);
      if s[0] == sep then [[]] + rest
      else [[s[0]] + rest[0]] + rest[1..]
  }

  /** sep.join(fields): the inverse of Split. */
  function Join(fields: seq<string>, sep: char): string
    requires |fields| >= 1
  {
    if |fields| == 1 then fields[0] else fields[0] + [sep] + Join(fields[1..], sep)
  }

  /** Joining the fields back gives the original string. */
  lemma {:induction false} JoinSplit(s: string, sep: char)
    ensures Join(Split(s, sep), sep) == s
  {
    if s != [] {
      var rest := Split(s[1..], sep);
      JoinSplit(s[1..], sep);
      if s[0] != sep {
        var r := Split(s, sep);
        if |rest| == 1 {
          assert r == [[s[0]] + rest[0]];
        } else {
          assert r[1..] == rest[1..];
          assert Join(rest, sep) == rest[0] + [sep] + Join(rest[1..], sep);
        }
      }
    }
  }

  /** A separator other than '"' keeps a join of quote-free fields quote-free. */
  lemma {:induction false} JoinAvoids(fields: seq<string>, sep: char, c: char)
    requires |fields| >= 1 && sep != c
    requires forall i :: 0 <= i < |fields| ==> c !in fields[i]
    ensures c !in Join(fields, sep)
  {
    if |fields| > 1 {
      JoinAvoids(fields[1..], sep, c);
    }
  }

  /** Splitting fields that contain no separator gives the fields back. */
  lemma {:induction false} SplitJoin(fields: seq<string>, sep: char)
    requires |fields| >= 1
    requires forall i :: 0 <= i < |fields| ==> sep !in fields[i]
    ensures Split(Join(fields, sep), sep) == fields
  {
    if |fields| == 1 {
      SplitNoSep(fields[0], sep);
    } else {
      SplitJoin(fields[1..], sep);
      SplitPrefix(fields[0], Join(fields[1..], sep), sep);
      assert [fields[0]] + fields[1..] == fields;
    }
  }

  /** A string with no separator is a single field. */
  lemma {:induction false} SplitNoSep(s: string, sep: char)
    requires sep !in s
    ensures Split(s, sep) == [s]
  {
    if s != [] {
      SplitNoSep(s[1..], sep);
      assert [s[0]] + s[1..] == s;
    }
  }

  /** A leading field `a` followed by a separator becomes the first field. */
  lemma {:induction false} SplitPrefix(a: string, b: string, sep: char)
    requires sep !in a
    ensures Split(a + [sep] + b, sep) == [a] + Split(b, sep)
  {
    if a == [] {
      assert a + [sep] + b == [sep] + b;
      assert ([sep] + b)[1..] == b;
    } else {
      assert (a + [sep] + b)[1..] == a[1..] + [sep] + b;
      SplitPrefix(a[1..], b, sep);
      assert [a[0]] + a[1..] == a;
    }
  }
}
