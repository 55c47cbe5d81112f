/** The SQL normalizer: three successive replace-all passes of case-insensitive regular
    expressions that wrap a comparison of an identifier with a quoted literal in LOWER,
    first `ident = 'lit'`, then `ident != 'lit'`, then `ident LIKE 'lit'`.

    A match of `(\w+)\s*OP\s*'([^']*)'` at a position of a text is forced: its head (the
    identifier, then the operator with its spaces) ends at the first quote from that
    position on, and its literal runs to the next quote. A replace-all pass takes the
    match at the leftmost position where one starts, replaces it, and carries on after
    it; where no match starts, it copies one rune and moves on (`ReplaceFrom`). The
    properties are proved segment by segment, from one quote to the next. Every
    definition reads a text by position. */
module Normalizer {
  import opened Wrappers
  import opened Text

  /** The comparison operator a pass rewrites. */
  datatype Op = Eq | Neq | Like

  const Quote: char := '\''

  /** A rune of `\w` under the case-insensitive flag: ASCII letters, digits and `_`,
      together with the long s and the Kelvin sign, which fold onto `s` and `k`. */
  predicate IsWordChar(c: char) {
    IsDigit(c) || IsAsciiUpper(c) || IsAsciiLower(c) || c == '_' || c == '\U{17F}' || c == '\U{212A}'
  }

  /** A rune of `\s`: tab, newline, form feed, carriage return and space. */
  predicate IsGapChar(c: char) {
    c == '\t' || c == '\n' || c == '\U{C}' || c == '\r' || c == ' '
  }

  // ---------------------------------------------------------------------------
  // Reading a text by position

  /** The first index of a quote in `s` at or after `i`. */
  function QuoteFrom(s: String, i: nat): (r: Option<nat>)
    requires i <= |s|
    ensures r.Some? ==> i <= r.value < |s| && s[r.value] == Quote
    decreases |s| - i
  {
    if i == |s| then None else if s[i] == Quote then Some(i) else QuoteFrom(s, i + 1)
  }

  /** `s` holds no quote in `[a, b)`. */
  predicate QuoteFreeIn(s: String, a: nat, b: nat)
    requires a <= b <= |s|
  {
    forall j :: a <= j < b ==> s[j] != Quote
  }

  /** The end of the run of space runes of `s` that starts at `a`, not going past `b`. */
  function GapEnd(s: String, a: nat, b: nat): (g: nat)
    requires a <= b <= |s|
    ensures a <= g <= b
    ensures g < b ==> !IsGapChar(s[g])
    decreases b - a
  {
    if a < b && IsGapChar(s[a]) then GapEnd(s, a + 1, b) else a
  }

  /** The end of the run of word runes of `s` that starts at `a`, not going past `b`. */
  function WordEnd(s: String, a: nat, b: nat): (w: nat)
    requires a <= b <= |s|
    ensures a <= w <= b
    ensures w < b ==> !IsWordChar(s[w])
    decreases b - a
  {
    if a < b && IsWordChar(s[a]) then WordEnd(s, a + 1, b) else a
  }

  predicate AllGapIn(s: String, a: nat, b: nat)
    requires a <= b <= |s|
  {
    forall j :: a <= j < b ==> IsGapChar(s[j])
  }

  /** `LIKE`, in any case, occurs at index `p` of `s`; the K also matches the Kelvin sign. */
  predicate LikeAt(s: String, p: int) {
    && 0 <= p && p + 4 <= |s|
    && (s[p] == 'L' || s[p] == 'l')
    && (s[p + 1] == 'I' || s[p + 1] == 'i')
    && (s[p + 2] == 'K' || s[p + 2] == 'k' || s[p + 2] == '\U{212A}')
    && (s[p + 3] == 'E' || s[p + 3] == 'e')
  }

  /** `s[a..b]` is the operator with the spaces around it: `\s*=\s*`, `\s*!=\s*` or
      `\s+LIKE\s+`. */
  predicate OpGapIn(op: Op, s: String, a: nat, b: nat)
    requires a <= b <= |s|
  {
    var g := GapEnd(s, a, b);
    match op
    case Eq => g < b && s[g] == '=' && AllGapIn(s, g + 1, b)
    case Neq => g + 1 < b && s[g] == '!' && s[g + 1] == '=' && AllGapIn(s, g + 2, b)
    case Like => a < g && g + 4 < b && LikeAt(s, g) && AllGapIn(s, g + 4, b)
  }

  /** `s[a..b]`, followed by a quote, is the head of a match: an identifier, then the
      operator with its spaces. The identifier is the longest run of word runes, because
      the operator part starts with a rune that is not one. */
  predicate IsHeadIn(op: Op, s: String, a: nat, b: nat)
    requires a <= b <= |s|
    decreases b - a
  {
    a < b && IsWordChar(s[a]) && (OpGapIn(op, s, a + 1, b) || IsHeadIn(op, s, a + 1, b))
  }

  /** A match: the identifier, the literal between the quotes, and the index after it. */
  datatype Match = Match(ident: String, literal: String, end: nat)

  /** The match of `op`'s expression that starts at index `i` of `s`, if there is one. */
  function MatchAt(op: Op, s: String, i: nat): Option<Match>
    requires i <= |s|
  {
    match QuoteFrom(s, i)
    case None => None
    case Some(k) =>
      if !IsHeadIn(op, s, i, k) then None
      else
        match QuoteFrom(s, k + 1)
        case None => None
        case Some(k2) => Some(Match(s[i..WordEnd(s, i, k)], s[k + 1..k2], k2 + 1))
  }

  function OpText(op: Op): String {
    match op
    case Eq => "="
    case Neq => "!="
    case Like => "LIKE"
  }

  /** What the replacement template puts before the literal's opening quote. */
  function Opening(op: Op, ident: String): String {
    "LOWER(" + ident + ") " + OpText(op) + " LOWER("
  }

  /** The replacement `LOWER($1) OP LOWER('$2')`. */
  function Rewrite(op: Op, ident: String, literal: String): String {
    Opening(op, ident) + [Quote] + literal + [Quote, ')']
  }

  // ---------------------------------------------------------------------------
  // Replace-all

  /** A compiled expression: for a text and an index of it, the match that starts there. */
  type Finder = (String, nat) -> Option<Match>

  /** A replacement template: the text that stands for a match. */
  type Replacer = Match -> String

  /** Every match `find` reports in `s` ends after the index it starts at, within `s`. */
  predicate Finds(find: Finder, s: String) {
    forall i :: 0 <= i < |s| && find(s, i).Some? ==> i < find(s, i).value.end <= |s|
  }

  /** Replaces every match of `find` in `s` from index `i` on, leftmost first: where a
      match starts, its replacement is emitted and the scan goes on after the match;
      elsewhere the rune is copied. */
  function ReplaceFrom(find: Finder, replace: Replacer, s: String, i: nat): String
    requires i <= |s| && Finds(find, s)
    decreases |s| - i
  {
    if i == |s| then []
    else
      match find(s, i)
      case Some(m) => replace(m) + ReplaceFrom(find, replace, s, m.end)
      case None => [s[i]] + ReplaceFrom(find, replace, s, i + 1)
  }

  /** The compiled expression of `op`'s pass. */
  function Expression(op: Op): Finder {
    (s: String, i: nat) => if i <= |s| then MatchAt(op, s, i) else None
  }

  /** The replacement template of `op`'s pass. */
  function Template(op: Op): Replacer {
    (m: Match) => Rewrite(op, m.ident, m.literal)
  }

  /** A match of an expression ends after its closing quote, within the text. */
  lemma {:induction false} ExpressionFinds(op: Op, s: String)
    ensures Finds(Expression(op), s)
  {
  }

  /** A replace-all pass of `op`'s expression over `s` from index `i` on. */
  function PassFrom(op: Op, s: String, i: nat): String
    requires i <= |s|
  {
    ExpressionFinds(op, s);
    ReplaceFrom(Expression(op), Template(op), s, i)
  }

  /** One replace-all pass of `op`'s expression over `s`. */
  function Pass(op: Op, s: String): String {
    PassFrom(op, s, 0)
  }

  /** NormalizeSQL: the `=` pass, then the `!=` pass, then the LIKE pass. */
  function NormalizeSQL(query: String): String {
    Pass(Like, Pass(Neq, Pass(Eq, query)))
  }

  // ---------------------------------------------------------------------------
  // Heads

  /** The first index in `[a, b)` from which `s[..b]` ends with a head. */
  function HeadStartIn(op: Op, s: String, a: nat, b: nat): (r: Option<nat>)
    requires a <= b <= |s|
    ensures r.Some? ==> a <= r.value < b
    decreases b - a
  {
    if a == b then None else if IsHeadIn(op, s, a, b) then Some(a) else HeadStartIn(op, s, a + 1, b)
  }

  // ---------------------------------------------------------------------------
  // Quotes

  /** `QuoteFrom` passes over runes that are not quotes. */
  lemma {:induction false} QuoteFromSkips(s: String, i: nat, b: nat)
    requires i <= b <= |s| && QuoteFreeIn(s, i, b)
    ensures QuoteFrom(s, i) == QuoteFrom(s, b)
    decreases b - i
  {
    if i < b {
      QuoteFromSkips(s, i + 1, b);
    }
  }

  /** `QuoteFrom` finds the first quote, and finds none only when there is none. */
  lemma {:induction false} QuoteFromIsFirst(s: String, i: nat)
    requires i <= |s|
    ensures QuoteFrom(s, i).Some? ==> QuoteFreeIn(s, i, QuoteFrom(s, i).value)
    ensures QuoteFrom(s, i).None? ==> QuoteFreeIn(s, i, |s|)
    decreases |s| - i
  {
    if i < |s| && s[i] != Quote {
      QuoteFromIsFirst(s, i + 1);
    }
  }

  /** No head starts in a range where `HeadStartIn` finds none. */
  lemma {:induction false} HeadStartNoneIsNowhere(op: Op, s: String, a: nat, b: nat, j: nat)
    requires a <= j < b <= |s| && HeadStartIn(op, s, a, b).None?
    ensures !IsHeadIn(op, s, j, b)
    decreases j - a
  {
    if a < j {
      HeadStartNoneIsNowhere(op, s, a + 1, b, j);
    }
  }

  /** `HeadStartIn` finds a head, and the first one. */
  lemma {:induction false} HeadStartIsFirst(op: Op, s: String, a: nat, b: nat, j: nat)
    requires a <= b <= |s| && HeadStartIn(op, s, a, b).Some?
    requires a <= j <= HeadStartIn(op, s, a, b).value
    ensures j < HeadStartIn(op, s, a, b).value ==> !IsHeadIn(op, s, j, b)
    ensures IsHeadIn(op, s, HeadStartIn(op, s, a, b).value, b)
    decreases b - a
  {
    if !IsHeadIn(op, s, a, b) {
      HeadStartIsFirst(op, s, a + 1, b, if j == a then a + 1 else j);
    }
  }

  // ---------------------------------------------------------------------------
  // Replace-all, whatever the expression

  lemma {:induction false} ConsOnto(s: String, i: nat, b: nat, p: String)
    requires i < b <= |s|
    ensures [s[i]] + (s[i + 1..b] + p) == s[i..b] + p
  {
    assert s[i..b] == [s[i]] + s[i + 1..b];
  }

  lemma {:induction false} Assoc(a: String, b: String, c: String)
    ensures a + (b + c) == a + b + c
  {
  }

  /** Where no match starts, the text is copied. */
  lemma {:induction false} ReplaceCopies(find: Finder, replace: Replacer, s: String, i: nat, b: nat)
    requires i <= b <= |s| && Finds(find, s)
    requires forall j :: i <= j < b ==> find(s, j).None?
    ensures ReplaceFrom(find, replace, s, i) == s[i..b] + ReplaceFrom(find, replace, s, b)
    decreases b - i
  {
    if i < b {
      ReplaceCopies(find, replace, s, i + 1, b);
      ConsOnto(s, i, b, ReplaceFrom(find, replace, s, b));
    }
  }

  /** A text in which no match starts is copied. */
  lemma {:induction false} ReplaceCopiesAll(find: Finder, replace: Replacer, s: String, i: nat)
    requires i <= |s| && Finds(find, s)
    requires forall j :: i <= j < |s| ==> find(s, j).None?
    ensures ReplaceFrom(find, replace, s, i) == s[i..]
    decreases |s| - i
  {
    if i < |s| {
      ReplaceCopiesAll(find, replace, s, i + 1);
      assert s[i..] == [s[i]] + s[i + 1..];
    }
  }

  /** Where a match starts, replace-all emits its replacement and goes on after it. */
  lemma {:induction false} ReplaceAt(find: Finder, replace: Replacer, s: String, i: nat)
    requires i < |s| && Finds(find, s) && find(s, i).Some?
    ensures ReplaceFrom(find, replace, s, i) == replace(find(s, i).value) + ReplaceFrom(find, replace, s, find(s, i).value.end)
  {
  }

  lemma {:induction false} ReplaceSegment(find: Finder, replace: Replacer, s: String, i: nat, j: nat)
    requires i <= j < |s| && Finds(find, s)
    requires forall j' :: i <= j' < j ==> find(s, j').None?
    requires find(s, j).Some?
    ensures var m := find(s, j).value;
            ReplaceFrom(find, replace, s, i) == s[i..j] + replace(m) + ReplaceFrom(find, replace, s, m.end)
  {
    var m := find(s, j).value;
    ReplaceCopies(find, replace, s, i, j);
    Assoc(s[i..j], replace(m), ReplaceFrom(find, replace, s, m.end));
  }

  // ---------------------------------------------------------------------------
  // Where the expressions match

  /** No match starts where no quote follows. */
  lemma {:induction false} NoMatchWithoutQuote(op: Op, s: String, i: nat)
    requires i <= |s| && QuoteFrom(s, i).None?
    ensures forall j :: i <= j < |s| ==> Expression(op)(s, j).None?
  {
    QuoteFromIsFirst(s, i);
    forall j | i <= j < |s|
      ensures MatchAt(op, s, j).None?
    {
      QuoteFromSkips(s, j, |s|);
    }
  }

  /** No match starts up to a quote with no head before it, or with no quote after it. */
  lemma {:induction false} NoMatchToQuote(op: Op, s: String, i: nat, k: nat)
    requires i <= |s| && QuoteFrom(s, i) == Some(k)
    requires HeadStartIn(op, s, i, k).None? || QuoteFrom(s, k + 1).None?
    ensures forall j :: i <= j < k + 1 ==> Expression(op)(s, j).None?
  {
    QuoteFromIsFirst(s, i);
    forall j | i <= j < k + 1
      ensures MatchAt(op, s, j).None?
    {
      QuoteFromSkips(s, j, k);
      if j < k && HeadStartIn(op, s, i, k).None? {
        HeadStartNoneIsNowhere(op, s, i, k, j);
      }
    }
  }

  /** No match starts before the first head, and one starts there when a quote closes the
      literal after it. */
  lemma {:induction false} MatchAtHead(op: Op, s: String, i: nat, k: nat, k2: nat)
    requires i <= |s| && QuoteFrom(s, i) == Some(k) && HeadStartIn(op, s, i, k).Some?
    requires QuoteFrom(s, k + 1) == Some(k2)
    ensures var j := HeadStartIn(op, s, i, k).value;
            && (forall j' :: i <= j' < j ==> Expression(op)(s, j').None?)
            && Expression(op)(s, j) == Some(Match(s[j..WordEnd(s, j, k)], s[k + 1..k2], k2 + 1))
  {
    var j := HeadStartIn(op, s, i, k).value;
    QuoteFromIsFirst(s, i);
    forall j' | i <= j' <= j
      ensures QuoteFrom(s, j') == Some(k)
      ensures j' < j ==> MatchAt(op, s, j').None?
    {
      QuoteFromSkips(s, j', k);
      HeadStartIsFirst(op, s, i, k, j');
    }
    HeadStartIsFirst(op, s, i, k, j);
    assert QuoteFrom(s, j) == Some(k) && IsHeadIn(op, s, j, k);
    assert MatchAt(op, s, j) == Some(Match(s[j..WordEnd(s, j, k)], s[k + 1..k2], k2 + 1));
  }

  // ---------------------------------------------------------------------------
  // A pass, segment by segment

  /** A pass copies a text without quotes. */
  lemma {:induction false} PassQuoteFree(op: Op, s: String, i: nat)
    requires i <= |s| && QuoteFrom(s, i).None?
    ensures PassFrom(op, s, i) == s[i..]
  {
    NoMatchWithoutQuote(op, s, i);
    ExpressionFinds(op, s);
    ReplaceCopiesAll(Expression(op), Template(op), s, i);
  }

  /** A pass copies the text up to the next quote, and the quote, when no match starts
      before it. */
  lemma {:induction false} PassToQuote(op: Op, s: String, i: nat, k: nat)
    requires i <= |s| && QuoteFrom(s, i) == Some(k)
    requires HeadStartIn(op, s, i, k).None? || QuoteFrom(s, k + 1).None?
    ensures PassFrom(op, s, i) == s[i..k + 1] + PassFrom(op, s, k + 1)
  {
    NoMatchToQuote(op, s, i, k);
    PassCopies(op, s, i, k + 1);
  }

  /** A pass copies the runes where no match starts. */
  lemma {:induction false} PassCopies(op: Op, s: String, i: nat, b: nat)
    requires i <= b <= |s|
    requires forall j :: i <= j < b ==> Expression(op)(s, j).None?
    ensures PassFrom(op, s, i) == s[i..b] + PassFrom(op, s, b)
  {
    ExpressionFinds(op, s);
    ReplaceCopies(Expression(op), Template(op), s, i, b);
  }

  /** A pass copies the text up to the first head before a closed literal and rewrites
      the comparison that starts there. */
  lemma {:induction false} PassAtHead(op: Op, s: String, i: nat, k: nat, k2: nat)
    requires i <= |s| && QuoteFrom(s, i) == Some(k) && HeadStartIn(op, s, i, k).Some?
    requires QuoteFrom(s, k + 1) == Some(k2)
    ensures var j := HeadStartIn(op, s, i, k).value;
            PassFrom(op, s, i) == s[i..j] + Rewrite(op, s[j..WordEnd(s, j, k)], s[k + 1..k2]) + PassFrom(op, s, k2 + 1)
  {
    var j := HeadStartIn(op, s, i, k).value;
    MatchAtHead(op, s, i, k, k2);
    ExpressionFinds(op, s);
    ReplaceSegment(Expression(op), Template(op), s, i, j);
  }


  // ---------------------------------------------------------------------------
  // Windows: the same runes at other indices

  /** `t` holds the runes of `s` in `[a, b)`, `d` indices further on. */
  predicate Agree(s: String, t: String, a: nat, b: nat, d: int) {
    && a <= b <= |s| && 0 <= a + d && b + d <= |t|
    && forall j {:trigger s[j]} :: a <= j < b ==> s[j] == t[j + d]
  }

  lemma {:induction false} AgreeWithin(s: String, t: String, a: nat, b: nat, d: int, a2: nat, b2: nat)
    requires Agree(s, t, a, b, d) && a <= a2 <= b2 <= b
    ensures Agree(s, t, a2, b2, d)
  {
  }

  lemma {:induction false} SliceAgree(s: String, t: String, a: nat, b: nat, d: int)
    requires Agree(s, t, a, b, d)
    ensures t[a + d..b + d] == s[a..b]
  {
  }

  lemma {:induction false} GapEndAgree(s: String, t: String, a: nat, b: nat, d: int)
    requires Agree(s, t, a, b, d)
    ensures GapEnd(t, a + d, b + d) == GapEnd(s, a, b) + d
    decreases b - a
  {
    if a < b {
      assert t[a + d] == s[a];
      AgreeWithin(s, t, a, b, d, a + 1, b);
      GapEndAgree(s, t, a + 1, b, d);
    }
  }

  lemma {:induction false} WordEndAgree(s: String, t: String, a: nat, b: nat, d: int)
    requires Agree(s, t, a, b, d)
    ensures WordEnd(t, a + d, b + d) == WordEnd(s, a, b) + d
    decreases b - a
  {
    if a < b {
      assert t[a + d] == s[a];
      AgreeWithin(s, t, a, b, d, a + 1, b);
      WordEndAgree(s, t, a + 1, b, d);
    }
  }

  lemma {:induction false} AllGapInAgree(s: String, t: String, a: nat, b: nat, d: int)
    requires Agree(s, t, a, b, d)
    ensures AllGapIn(t, a + d, b + d) <==> AllGapIn(s, a, b)
  {
    forall j | a + d <= j < b + d
      ensures t[j] == s[j - d]
    {
      assert s[j - d] == t[(j - d) + d];
    }
  }

  lemma {:induction false} QuoteFreeInAgree(s: String, t: String, a: nat, b: nat, d: int)
    requires Agree(s, t, a, b, d)
    ensures QuoteFreeIn(t, a + d, b + d) <==> QuoteFreeIn(s, a, b)
  {
    forall j | a + d <= j < b + d
      ensures t[j] == s[j - d]
    {
      assert s[j - d] == t[(j - d) + d];
    }
  }

  lemma {:induction false} LikeAtAgree(s: String, t: String, a: nat, b: nat, d: int, p: nat)
    requires Agree(s, t, a, b, d) && a <= p && p + 4 <= b
    ensures LikeAt(t, p + d) <==> LikeAt(s, p)
  {
    assert t[p + d] == s[p] && t[p + 1 + d] == s[p + 1];
    assert t[p + 2 + d] == s[p + 2] && t[p + 3 + d] == s[p + 3];
  }

  lemma {:induction false} OpGapInAgree(op: Op, s: String, t: String, a: nat, b: nat, d: int)
    requires Agree(s, t, a, b, d)
    ensures OpGapIn(op, t, a + d, b + d) <==> OpGapIn(op, s, a, b)
  {
    GapEndAgree(s, t, a, b, d);
    var g := GapEnd(s, a, b);
    if g < b {
      assert t[g + d] == s[g];
      AgreeWithin(s, t, a, b, d, g + 1, b);
      AllGapInAgree(s, t, g + 1, b, d);
    }
    if g + 1 < b {
      assert t[g + 1 + d] == s[g + 1];
      AgreeWithin(s, t, a, b, d, g + 2, b);
      AllGapInAgree(s, t, g + 2, b, d);
    }
    if g + 4 < b {
      LikeAtAgree(s, t, a, b, d, g);
      AgreeWithin(s, t, a, b, d, g + 4, b);
      AllGapInAgree(s, t, g + 4, b, d);
    }
  }

  lemma {:induction false} IsHeadInAgree(op: Op, s: String, t: String, a: nat, b: nat, d: int)
    requires Agree(s, t, a, b, d)
    ensures IsHeadIn(op, t, a + d, b + d) <==> IsHeadIn(op, s, a, b)
    decreases b - a
  {
    if a < b {
      assert t[a + d] == s[a];
      AgreeWithin(s, t, a, b, d, a + 1, b);
      OpGapInAgree(op, s, t, a + 1, b, d);
      IsHeadInAgree(op, s, t, a + 1, b, d);
    }
  }

  lemma {:induction false} HeadStartInAgree(op: Op, s: String, t: String, a: nat, b: nat, d: int)
    requires Agree(s, t, a, b, d)
    ensures HeadStartIn(op, t, a + d, b + d).None? <==> HeadStartIn(op, s, a, b).None?
    ensures HeadStartIn(op, s, a, b).Some? ==>
      HeadStartIn(op, t, a + d, b + d).value == HeadStartIn(op, s, a, b).value + d
    decreases b - a
  {
    if a < b {
      IsHeadInAgree(op, s, t, a, b, d);
      AgreeWithin(s, t, a, b, d, a + 1, b);
      HeadStartInAgree(op, s, t, a + 1, b, d);
    }
  }

  /** The quotes of a text from `a` on are those of any text that ends with the same runes. */
  lemma {:induction false} QuoteFromAgree(s: String, t: String, a: nat, d: int)
    requires Agree(s, t, a, |s|, d) && |t| == |s| + d
    ensures QuoteFrom(t, a + d).None? <==> QuoteFrom(s, a).None?
    ensures QuoteFrom(s, a).Some? ==> QuoteFrom(t, a + d).value == QuoteFrom(s, a).value + d
    decreases |s| - a
  {
    if a < |s| {
      assert t[a + d] == s[a];
      AgreeWithin(s, t, a, |s|, d, a + 1, |s|);
      QuoteFromAgree(s, t, a + 1, d);
    }
  }

  // ---------------------------------------------------------------------------
  // Literals and settled texts

  /** `=`, or LIKE ending by `b`, occurs at index `p` of `s`. */
  predicate DirtyAt(s: String, p: nat, b: nat)
    requires p < b <= |s|
  {
    s[p] == '=' || (p + 4 <= b && LikeAt(s, p))
  }

  /** `s` holds `=` or LIKE in `[a, b)`. */
  predicate DirtyIn(s: String, a: nat, b: nat)
    requires a <= b <= |s|
  {
    exists p :: a <= p < b && DirtyAt(s, p, b)
  }

  /** Every quoted literal of `s` from `i` on (the text between the first and the second
      quote, the third and the fourth, and so on) holds neither `=` nor LIKE. */
  predicate CleanFrom(s: String, i: nat)
    requires i <= |s|
    decreases |s| - i
  {
    match QuoteFrom(s, i)
    case None => true
    case Some(k) =>
      match QuoteFrom(s, k + 1)
      case None => true
      case Some(k2) => !DirtyIn(s, k + 1, k2) && CleanFrom(s, k2 + 1)
  }

  /** No comparison of `op`'s expression starts in the text before any quoted literal of
      `s` from `i` on. */
  predicate SettledFrom(op: Op, s: String, i: nat)
    requires i <= |s|
    decreases |s| - i
  {
    match QuoteFrom(s, i)
    case None => true
    case Some(k) =>
      match QuoteFrom(s, k + 1)
      case None => true
      case Some(k2) => HeadStartIn(op, s, i, k).None? && SettledFrom(op, s, k2 + 1)
  }

  predicate Clean(s: String) {
    CleanFrom(s, 0)
  }

  predicate Settled(op: Op, s: String) {
    SettledFrom(op, s, 0)
  }

  lemma {:induction false} DirtyInAgree(s: String, t: String, a: nat, b: nat, d: int)
    requires Agree(s, t, a, b, d)
    ensures DirtyIn(t, a + d, b + d) <==> DirtyIn(s, a, b)
  {
    if DirtyIn(s, a, b) {
      var p :| a <= p < b && DirtyAt(s, p, b);
      assert t[p + d] == s[p];
      if p + 4 <= b {
        LikeAtAgree(s, t, a, b, d, p);
      }
      assert a + d <= p + d < b + d && DirtyAt(t, p + d, b + d);
    }
    if DirtyIn(t, a + d, b + d) {
      var p :| a + d <= p < b + d && DirtyAt(t, p, b + d);
      assert s[p - d] == t[p];
      if p + 4 <= b + d {
        LikeAtAgree(s, t, a, b, d, p - d);
      }
      assert a <= p - d < b && DirtyAt(s, p - d, b);
    }
  }

  /** The first literal of a text from `i` on lies at the same place, `d` further on, in
      a text that ends with the same runes. */
  lemma {:induction false} LiteralAgree(s: String, t: String, i: nat, d: int)
    requires Agree(s, t, i, |s|, d) && |t| == |s| + d
    ensures QuoteFrom(t, i + d).None? <==> QuoteFrom(s, i).None?
    ensures QuoteFrom(s, i).Some? ==>
      var k := QuoteFrom(s, i).value;
      && QuoteFrom(t, i + d) == Some(k + d)
      && (QuoteFrom(t, k + 1 + d).None? <==> QuoteFrom(s, k + 1).None?)
      && (QuoteFrom(s, k + 1).Some? ==> QuoteFrom(t, k + 1 + d) == Some(QuoteFrom(s, k + 1).value + d))
  {
    QuoteFromAgree(s, t, i, d);
    if QuoteFrom(s, i).Some? {
      var k := QuoteFrom(s, i).value;
      AgreeWithin(s, t, i, |s|, d, k + 1, |s|);
      QuoteFromAgree(s, t, k + 1, d);
    }
  }

  lemma {:induction false} CleanFromAgree(s: String, t: String, i: nat, d: int)
    requires Agree(s, t, i, |s|, d) && |t| == |s| + d
    ensures CleanFrom(s, i) ==> CleanFrom(t, i + d)
    decreases |s| - i
  {
    LiteralAgree(s, t, i, d);
    if QuoteFrom(s, i).Some? && QuoteFrom(s, QuoteFrom(s, i).value + 1).Some? {
      var k := QuoteFrom(s, i).value;
      var k2 := QuoteFrom(s, k + 1).value;
      AgreeWithin(s, t, i, |s|, d, k + 1, k2);
      DirtyInAgree(s, t, k + 1, k2, d);
      AgreeWithin(s, t, i, |s|, d, k2 + 1, |s|);
      CleanFromAgree(s, t, k2 + 1, d);
    }
  }

  lemma {:induction false} SettledFromAgree(op: Op, s: String, t: String, i: nat, d: int)
    requires Agree(s, t, i, |s|, d) && |t| == |s| + d
    ensures SettledFrom(op, s, i) ==> SettledFrom(op, t, i + d)
    decreases |s| - i
  {
    LiteralAgree(s, t, i, d);
    if QuoteFrom(s, i).Some? && QuoteFrom(s, QuoteFrom(s, i).value + 1).Some? {
      var k := QuoteFrom(s, i).value;
      var k2 := QuoteFrom(s, k + 1).value;
      AgreeWithin(s, t, i, |s|, d, i, k);
      HeadStartInAgree(op, s, t, i, k, d);
      AgreeWithin(s, t, i, |s|, d, k2 + 1, |s|);
      SettledFromAgree(op, s, t, k2 + 1, d);
    }
  }

  /** A suffix of a text is clean and settled as the text is from there on. */
  lemma {:induction false} SuffixFacts(op: Op, s: String, i: nat)
    requires i <= |s|
    ensures CleanFrom(s, i) ==> Clean(s[i..])
    ensures SettledFrom(op, s, i) ==> Settled(op, s[i..])
  {
    var d: int := -(i as int);
    assert Agree(s, s[i..], i, |s|, d);
    CleanFromAgree(s, s[i..], i, d);
    SettledFromAgree(op, s, s[i..], i, d);
  }

  /** `u` is `c`, a quote, `lit`, a quote and `t`, read by position. */
  predicate Paired(u: String, c: String, lit: String, t: String) {
    && |u| == |c| + |lit| + 2 + |t|
    && Agree(c, u, 0, |c|, 0) && u[|c|] == Quote
    && Agree(lit, u, 0, |lit|, |c| + 1) && u[|c| + 1 + |lit|] == Quote
    && Agree(t, u, 0, |t|, |c| + |lit| + 2)
  }

  lemma {:induction false} PairShape(c: String, lit: String, t: String)
    ensures Paired(c + [Quote] + lit + [Quote] + t, c, lit, t)
  {
  }

  /** The first quote at or after `i` is at `k` when none lies in between. */
  lemma {:induction false} QuoteAt(s: String, i: nat, k: nat)
    requires i <= k < |s| && QuoteFreeIn(s, i, k) && s[k] == Quote
    ensures QuoteFrom(s, i) == Some(k)
  {
    QuoteFromSkips(s, i, k);
  }

  lemma {:induction false} PairQuotes(u: String, c: String, lit: String, t: String)
    requires Paired(u, c, lit, t) && QuoteFreeIn(c, 0, |c|) && QuoteFreeIn(lit, 0, |lit|)
    ensures QuoteFrom(u, 0) == Some(|c|) && QuoteFrom(u, |c| + 1) == Some(|c| + 1 + |lit|)
  {
    QuoteFreeInAgree(c, u, 0, |c|, 0);
    QuoteAt(u, 0, |c|);
    QuoteFreeInAgree(lit, u, 0, |lit|, |c| + 1);
    QuoteAt(u, |c| + 1, |c| + 1 + |lit|);
  }

  /** A text made of `c`, then `lit` between quotes, then `t`, with quote-free `c` and
      `lit`, is clean when `lit` holds neither `=` nor LIKE and `t` is clean. */
  lemma {:induction false} CleanPair(u: String, c: String, lit: String, t: String)
    requires Paired(u, c, lit, t) && QuoteFreeIn(c, 0, |c|) && QuoteFreeIn(lit, 0, |lit|)
    ensures !DirtyIn(lit, 0, |lit|) && Clean(t) ==> Clean(u)
  {
    PairQuotes(u, c, lit, t);
    DirtyInAgree(lit, u, 0, |lit|, |c| + 1);
    CleanFromAgree(t, u, 0, |c| + |lit| + 2);
  }

  /** Such a text is settled when no head starts in `c` and `t` is settled. */
  lemma {:induction false} SettledPair(op: Op, u: String, c: String, lit: String, t: String)
    requires Paired(u, c, lit, t) && QuoteFreeIn(c, 0, |c|) && QuoteFreeIn(lit, 0, |lit|)
    ensures HeadStartIn(op, c, 0, |c|).None? && Settled(op, t) ==> Settled(op, u)
  {
    PairQuotes(u, c, lit, t);
    HeadStartInAgree(op, c, u, 0, |c|, 0);
    SettledFromAgree(op, t, u, 0, |c| + |lit| + 2);
  }

  /** A closing parenthesis in front of a clean, settled text leaves it so. */
  lemma {:induction false} ParenPrefix(op: Op, u: String, t: String)
    requires |u| == |t| + 1 && u[0] == ')' && Agree(t, u, 0, |t|, 1)
    ensures Clean(t) ==> Clean(u)
    ensures Settled(op, t) ==> Settled(op, u)
  {
    CleanFromAgree(t, u, 0, 1);
    SettledFromAgree(op, t, u, 0, 1);
    assert QuoteFrom(u, 0) == QuoteFrom(u, 1);
    if QuoteFrom(u, 1).Some? {
      var k := QuoteFrom(u, 1).value;
      assert HeadStartIn(op, u, 0, k) == HeadStartIn(op, u, 1, k);
    }
  }

  lemma {:induction false} QuoteFreeSlice(s: String, a: nat, b: nat)
    requires a <= b <= |s| && QuoteFreeIn(s, a, b)
    ensures QuoteFreeIn(s[a..b], 0, b - a)
  {
  }

  lemma {:induction false} QuoteFreeConcat(a: String, b: String)
    requires QuoteFreeIn(a, 0, |a|) && QuoteFreeIn(b, 0, |b|)
    ensures QuoteFreeIn(a + b, 0, |a + b|)
  {
  }

  /** A slice holds `=` or LIKE exactly when the text does in its range. */
  lemma {:induction false} DirtySlice(s: String, a: nat, b: nat)
    requires a <= b <= |s|
    ensures DirtyIn(s[a..b], 0, b - a) <==> DirtyIn(s, a, b)
  {
    assert Agree(s[a..b], s, 0, b - a, a);
    DirtyInAgree(s[a..b], s, 0, b - a, a);
  }

  /** A slice holds a head exactly when the text does in its range. */
  lemma {:induction false} HeadStartSlice(op: Op, s: String, a: nat, b: nat)
    requires a <= b <= |s|
    ensures HeadStartIn(op, s[a..b], 0, b - a).None? <==> HeadStartIn(op, s, a, b).None?
  {
    assert Agree(s[a..b], s, 0, b - a, a);
    HeadStartInAgree(op, s[a..b], s, 0, b - a, a);
  }

  // ---------------------------------------------------------------------------
  // Where heads end

  lemma {:induction false} GapEndIsGap(s: String, a: nat, b: nat, j: nat)
    requires a <= b <= |s| && a <= j < GapEnd(s, a, b)
    ensures IsGapChar(s[j])
    decreases b - a
  {
    if a < j {
      GapEndIsGap(s, a + 1, b, j);
    }
  }

  /** The operator part ends with a space or with `=`. */
  lemma {:induction false} OpGapEnd(op: Op, s: String, a: nat, b: nat)
    requires a <= b <= |s| && OpGapIn(op, s, a, b)
    ensures 0 < b && (IsGapChar(s[b - 1]) || s[b - 1] == '=')
  {
  }

  /** A head ends with a space or with `=`. */
  lemma {:induction false} HeadEnd(op: Op, s: String, a: nat, b: nat)
    requires a <= b <= |s| && IsHeadIn(op, s, a, b)
    ensures 0 < b && (IsGapChar(s[b - 1]) || s[b - 1] == '=')
    decreases b - a
  {
    if OpGapIn(op, s, a + 1, b) {
      OpGapEnd(op, s, a + 1, b);
    } else {
      HeadEnd(op, s, a + 1, b);
    }
  }

  /** No head ends with an opening parenthesis. */
  lemma {:induction false} NoHeadBeforeParen(op: Op, s: String, a: nat, b: nat)
    requires a <= b <= |s| && 0 < b && s[b - 1] == '('
    ensures HeadStartIn(op, s, a, b).None?
    decreases b - a
  {
    if a < b {
      if IsHeadIn(op, s, a, b) {
        HeadEnd(op, s, a, b);
      }
      NoHeadBeforeParen(op, s, a + 1, b);
    }
  }

  /** The operator part holds `=` or LIKE. */
  lemma {:induction false} OpGapIsDirty(op: Op, s: String, a: nat, b: nat)
    requires a <= b <= |s| && OpGapIn(op, s, a, b)
    ensures DirtyIn(s, a, b)
  {
    var g := GapEnd(s, a, b);
    match op
    case Eq =>
      assert a <= g < b && DirtyAt(s, g, b);
    case Neq =>
      assert a <= g + 1 < b && DirtyAt(s, g + 1, b);
    case Like =>
      assert a <= g < b && DirtyAt(s, g, b);
  }

  /** A head holds `=` or LIKE. */
  lemma {:induction false} HeadIsDirty(op: Op, s: String, a: nat, b: nat)
    requires a <= b <= |s| && IsHeadIn(op, s, a, b)
    ensures DirtyIn(s, a, b)
    decreases b - a
  {
    if OpGapIn(op, s, a + 1, b) {
      OpGapIsDirty(op, s, a + 1, b);
    } else {
      HeadIsDirty(op, s, a + 1, b);
    }
    var p :| a + 1 <= p < b && DirtyAt(s, p, b);
    assert a <= p < b && DirtyAt(s, p, b);
  }

  /** A range without `=` and LIKE holds no head. */
  lemma {:induction false} CleanHasNoHead(op: Op, s: String, a: nat, b: nat)
    requires a <= b <= |s| && !DirtyIn(s, a, b)
    ensures HeadStartIn(op, s, a, b).None?
    decreases b - a
  {
    if a < b {
      if IsHeadIn(op, s, a, b) {
        HeadIsDirty(op, s, a, b);
      }
      CleanHasNoHead(op, s, a + 1, b);
    }
  }

  /** No head starts anywhere in `[a, b)`, so `HeadStartIn` finds none. */
  lemma {:induction false} NoHeadNoStart(op: Op, s: String, a: nat, b: nat)
    requires a <= b <= |s| && forall p :: a <= p < b ==> !IsHeadIn(op, s, p, b)
    ensures HeadStartIn(op, s, a, b).None?
    decreases b - a
  {
    if a < b {
      NoHeadNoStart(op, s, a + 1, b);
    }
  }

  // ---------------------------------------------------------------------------
  // A pass, literal by literal

  /** One step of a pass: where no match starts the rune is copied, and where one starts
      its replacement is emitted and the pass goes on after it. */
  lemma {:induction false} PassStep(op: Op, s: String, i: nat)
    requires i < |s|
    ensures MatchAt(op, s, i).None? ==> PassFrom(op, s, i) == [s[i]] + PassFrom(op, s, i + 1)
    ensures MatchAt(op, s, i).Some? ==>
      var m := MatchAt(op, s, i).value;
      PassFrom(op, s, i) == Rewrite(op, m.ident, m.literal) + PassFrom(op, s, m.end)
  {
    ExpressionFinds(op, s);
  }

  /** A pass leaves a text alone when every literal is clean and no comparison of its
      expression starts before a literal. */
  lemma {:induction false} SettledHasNoMatch(op: Op, s: String, i: nat)
    requires i <= |s| && CleanFrom(s, i) && SettledFrom(op, s, i)
    ensures forall j :: i <= j < |s| ==> Expression(op)(s, j).None?
    decreases |s| - i
  {
    match QuoteFrom(s, i)
    case None =>
      NoMatchWithoutQuote(op, s, i);
    case Some(k) =>
      match QuoteFrom(s, k + 1)
      case None =>
        NoMatchToQuote(op, s, i, k);
        NoMatchWithoutQuote(op, s, k + 1);
      case Some(k2) =>
        NoMatchToQuote(op, s, i, k);
        CleanHasNoHead(op, s, k + 1, k2);
        NoMatchToQuote(op, s, k + 1, k2);
        SettledHasNoMatch(op, s, k2 + 1);
  }

  /** A clean, settled text is a fixed point of the pass. */
  lemma {:induction false} PassFixed(op: Op, s: String)
    requires Clean(s) && Settled(op, s)
    ensures Pass(op, s) == s
  {
    SettledHasNoMatch(op, s, 0);
    ExpressionFinds(op, s);
    ReplaceCopiesAll(Expression(op), Template(op), s, 0);
  }

  lemma {:induction false} Regroup(s: String, i: nat, k: nat, k2: nat, t: String)
    requires i <= k < k2 < |s| && s[k] == Quote && s[k2] == Quote
    ensures s[i..k + 1] + (s[k + 1..k2 + 1] + t) == s[i..k] + [Quote] + s[k + 1..k2] + [Quote] + t
  {
    assert s[i..k + 1] == s[i..k] + [Quote];
    assert s[k + 1..k2 + 1] == s[k + 1..k2] + [Quote];
  }

  lemma {:induction false} RewriteRegroup(op: Op, a: String, ident: String, lit: String, t: String)
    ensures a + Rewrite(op, ident, lit) + t == (a + Opening(op, ident)) + [Quote] + lit + [Quote] + ([')'] + t)
  {
  }

  /** The text before the literal in a rewritten comparison has no quote and ends with
      an opening parenthesis. */
  lemma {:induction false} OpeningShape(op: Op, ident: String)
    requires QuoteFreeIn(ident, 0, |ident|)
    ensures QuoteFreeIn(Opening(op, ident), 0, |Opening(op, ident)|)
    ensures |Opening(op, ident)| > 0 && Opening(op, ident)[|Opening(op, ident)| - 1] == '('
  {
    var w := "LOWER(";
    var v := ") " + OpText(op) + " LOWER(";
    assert Opening(op, ident) == w + ident + v;
    assert QuoteFreeIn(w, 0, |w|) && QuoteFreeIn(v, 0, |v|);
    QuoteFreeConcat(w, ident);
    QuoteFreeConcat(w + ident, v);
  }

  /** A closing parenthesis put in front of a text. */
  lemma {:induction false} ParenShape(t: String)
    ensures var u := [')'] + t; |u| == |t| + 1 && u[0] == ')' && Agree(t, u, 0, |t|, 1)
  {
  }

  /** A text made of quote-free `c`, a clean literal and `t` is clean and settled when
      no head starts in `c` and `t` is clean and settled. */
  lemma {:induction false} LiteralPairSettles(op: Op, u: String, c: String, lit: String, t: String)
    requires u == c + [Quote] + lit + [Quote] + t
    requires QuoteFreeIn(c, 0, |c|) && QuoteFreeIn(lit, 0, |lit|) && !DirtyIn(lit, 0, |lit|)
    requires HeadStartIn(op, c, 0, |c|).None? && Clean(t) && Settled(op, t)
    ensures Clean(u) && Settled(op, u)
  {
    PairShape(c, lit, t);
    CleanPair(u, c, lit, t);
    SettledPair(op, u, c, lit, t);
  }

  /** The text before a quote and a literal, taken out of `s`. */
  lemma {:induction false} SegmentFacts(op: Op, s: String, i: nat, k: nat, k2: nat)
    requires i <= |s| && QuoteFrom(s, i) == Some(k) && QuoteFrom(s, k + 1) == Some(k2)
    ensures QuoteFreeIn(s[i..k], 0, k - i) && QuoteFreeIn(s[k + 1..k2], 0, k2 - (k + 1))
    ensures DirtyIn(s[k + 1..k2], 0, k2 - (k + 1)) <==> DirtyIn(s, k + 1, k2)
    ensures HeadStartIn(op, s[i..k], 0, k - i).None? <==> HeadStartIn(op, s, i, k).None?
  {
    QuoteFromIsFirst(s, i);
    QuoteFromIsFirst(s, k + 1);
    QuoteFreeSlice(s, i, k);
    QuoteFreeSlice(s, k + 1, k2);
    DirtySlice(s, k + 1, k2);
    HeadStartSlice(op, s, i, k);
  }

  /** Over a closed literal with no head before it, a pass copies the text, both quotes
      and the literal. */
  lemma {:induction false} CopiedShape(op: Op, s: String, i: nat, k: nat, k2: nat)
    requires i <= |s| && QuoteFrom(s, i) == Some(k) && QuoteFrom(s, k + 1) == Some(k2)
    requires HeadStartIn(op, s, i, k).None? && !DirtyIn(s, k + 1, k2)
    ensures PassFrom(op, s, i) == s[i..k] + [Quote] + s[k + 1..k2] + [Quote] + PassFrom(op, s, k2 + 1)
  {
    PassToQuote(op, s, i, k);
    CleanHasNoHead(op, s, k + 1, k2);
    PassToQuote(op, s, k + 1, k2);
    Regroup(s, i, k, k2, PassFrom(op, s, k2 + 1));
  }

  /** Over a closed literal with a head before it, a pass copies the text up to the head
      and rewrites the comparison: what stands before the literal is quote-free and ends
      with an opening parenthesis, and a closing one follows the literal. */
  lemma {:induction false} RewrittenShape(op: Op, s: String, i: nat, k: nat, k2: nat) returns (c: String)
    requires i <= |s| && QuoteFrom(s, i) == Some(k) && QuoteFrom(s, k + 1) == Some(k2)
    requires HeadStartIn(op, s, i, k).Some?
    ensures PassFrom(op, s, i) == c + [Quote] + s[k + 1..k2] + [Quote] + ([')'] + PassFrom(op, s, k2 + 1))
    ensures QuoteFreeIn(c, 0, |c|) && |c| > 0 && c[|c| - 1] == '('
  {
    var j := HeadStartIn(op, s, i, k).value;
    var ident := s[j..WordEnd(s, j, k)];
    PassAtHead(op, s, i, k, k2);
    RewriteRegroup(op, s[i..j], ident, s[k + 1..k2], PassFrom(op, s, k2 + 1));
    QuoteFromIsFirst(s, i);
    QuoteFreeSlice(s, i, j);
    QuoteFreeSlice(s, j, WordEnd(s, j, k));
    OpeningShape(op, ident);
    c := s[i..j] + Opening(op, ident);
    QuoteFreeConcat(s[i..j], Opening(op, ident));
  }

  /** The pass over a closed literal with no head before it copies it: the result is
      clean and settled as what follows is. */
  lemma {:induction false} CopiedLiteralSettles(op: Op, op2: Op, s: String, i: nat, k: nat, k2: nat)
    requires i <= |s| && QuoteFrom(s, i) == Some(k) && QuoteFrom(s, k + 1) == Some(k2)
    requires HeadStartIn(op, s, i, k).None? && !DirtyIn(s, k + 1, k2)
    requires op2 == op || HeadStartIn(op2, s, i, k).None?
    requires Clean(PassFrom(op, s, k2 + 1)) && Settled(op2, PassFrom(op, s, k2 + 1))
    ensures Clean(PassFrom(op, s, i)) && Settled(op2, PassFrom(op, s, i))
  {
    CopiedShape(op, s, i, k, k2);
    SegmentFacts(op2, s, i, k, k2);
    LiteralPairSettles(op2, PassFrom(op, s, i), s[i..k], s[k + 1..k2], PassFrom(op, s, k2 + 1));
  }

  /** The pass over a closed literal with a head before it rewrites the comparison: the
      result is clean and settled as what follows is. */
  lemma {:induction false} RewrittenLiteralSettles(op: Op, op2: Op, s: String, i: nat, k: nat, k2: nat)
    requires i <= |s| && QuoteFrom(s, i) == Some(k) && QuoteFrom(s, k + 1) == Some(k2)
    requires HeadStartIn(op, s, i, k).Some? && !DirtyIn(s, k + 1, k2)
    requires Clean(PassFrom(op, s, k2 + 1)) && Settled(op2, PassFrom(op, s, k2 + 1))
    ensures Clean(PassFrom(op, s, i)) && Settled(op2, PassFrom(op, s, i))
  {
    var c := RewrittenShape(op, s, i, k, k2);
    var t := PassFrom(op, s, k2 + 1);
    SegmentFacts(op2, s, i, k, k2);
    NoHeadBeforeParen(op2, c, 0, |c|);
    ParenShape(t);
    ParenPrefix(op2, [')'] + t, t);
    LiteralPairSettles(op2, PassFrom(op, s, i), c, s[k + 1..k2], [')'] + t);
  }

  /** A pass copies a text from a quote that no other quote follows. */
  lemma {:induction false} PassOneQuote(op: Op, s: String, i: nat, k: nat)
    requires i <= |s| && QuoteFrom(s, i) == Some(k) && QuoteFrom(s, k + 1).None?
    ensures PassFrom(op, s, i) == s[i..]
  {
    NoMatchToQuote(op, s, i, k);
    NoMatchWithoutQuote(op, s, k + 1);
    ExpressionFinds(op, s);
    ReplaceCopiesAll(Expression(op), Template(op), s, i);
  }

  /** A pass copies a text from `i` on that has no closed literal. */
  lemma {:induction false} PassUnclosed(op: Op, s: String, i: nat)
    requires i <= |s|
    requires QuoteFrom(s, i).None? || QuoteFrom(s, QuoteFrom(s, i).value + 1).None?
    ensures PassFrom(op, s, i) == s[i..]
  {
    if QuoteFrom(s, i).None? {
      PassQuoteFree(op, s, i);
    } else {
      PassOneQuote(op, s, i, QuoteFrom(s, i).value);
    }
  }

  /** ... and the copy is clean and settled. */
  lemma {:induction false} UnclosedSettles(op: Op, op2: Op, s: String, i: nat)
    requires i <= |s| && CleanFrom(s, i)
    requires QuoteFrom(s, i).None? || QuoteFrom(s, QuoteFrom(s, i).value + 1).None?
    ensures Clean(PassFrom(op, s, i)) && Settled(op2, PassFrom(op, s, i))
  {
    PassUnclosed(op, s, i);
    assert SettledFrom(op2, s, i);
    SuffixFacts(op2, s, i);
  }

  /** A pass over a text whose literals are clean leaves its literals clean and no
      comparison of its own expression before a literal; a comparison of another
      expression appears before a literal only where one already stood. */
  lemma {:induction false} PassSettles(op: Op, op2: Op, s: String, i: nat)
    requires i <= |s| && CleanFrom(s, i)
    requires op2 == op || SettledFrom(op2, s, i)
    ensures Clean(PassFrom(op, s, i)) && Settled(op2, PassFrom(op, s, i))
    decreases |s| - i
  {
    if QuoteFrom(s, i).None? || QuoteFrom(s, QuoteFrom(s, i).value + 1).None? {
      UnclosedSettles(op, op2, s, i);
    } else {
      var k := QuoteFrom(s, i).value;
      var k2 := QuoteFrom(s, k + 1).value;
      PassSettles(op, op2, s, k2 + 1);
      if HeadStartIn(op, s, i, k).None? {
        CopiedLiteralSettles(op, op2, s, i, k, k2);
      } else {
        RewrittenLiteralSettles(op, op2, s, i, k, k2);
      }
    }
  }

  // ---------------------------------------------------------------------------
  // Properties of NormalizeSQL

  /** Normalizing twice is normalizing once, for a query whose literals hold neither `=`
      nor LIKE: every comparison the passes rewrite has its literal behind
      `LOWER(`, where no expression matches again. */
  lemma {:induction false} NormalizeIdempotent(query: String)
    requires Clean(query)
    ensures NormalizeSQL(NormalizeSQL(query)) == NormalizeSQL(query)
  {
    var e := Pass(Eq, query);
    var n := Pass(Neq, e);
    var r := Pass(Like, n);
    PassSettles(Eq, Eq, query, 0);
    PassSettles(Neq, Eq, e, 0);
    PassSettles(Neq, Neq, e, 0);
    PassSettles(Like, Eq, n, 0);
    PassSettles(Like, Neq, n, 0);
    PassSettles(Like, Like, n, 0);
    PassFixed(Eq, r);
    PassFixed(Neq, r);
    PassFixed(Like, r);
  }

  /** A query without a quote is left as it is. */
  lemma {:induction false} NoQuoteUnchanged(query: String)
    requires Quote !in query
    ensures NormalizeSQL(query) == query
  {
    PassQuoteFree(Eq, query, 0);
    PassQuoteFree(Neq, query, 0);
    PassQuoteFree(Like, query, 0);
  }

  // ---------------------------------------------------------------------------
  // Comparisons

  /** A head of `=`'s expression: the `=` it holds, with a word or a space rune before it
      and only spaces after it. */
  lemma {:induction false} EqHeadShape(s: String, p: nat, b: nat) returns (g: nat)
    requires p <= b <= |s|
    ensures IsHeadIn(Eq, s, p, b) ==>
      && p < g < b && s[g] == '=' && AllGapIn(s, g + 1, b)
      && (IsWordChar(s[g - 1]) || IsGapChar(s[g - 1]))
    decreases b - p
  {
    g := p;
    if IsHeadIn(Eq, s, p, b) {
      if OpGapIn(Eq, s, p + 1, b) {
        g := GapEnd(s, p + 1, b);
        if p + 1 < g {
          GapEndIsGap(s, p + 1, b, g - 1);
        }
      } else {
        g := EqHeadShape(s, p + 1, b);
      }
    }
  }

  /** A head of `!=`'s expression: the `=` of its `!=`, with `!` before it and only spaces
      after it. */
  lemma {:induction false} NeqHeadShape(s: String, p: nat, b: nat) returns (e: nat)
    requires p <= b <= |s| && IsHeadIn(Neq, s, p, b)
    ensures p < e < b && s[e - 1] == '!' && s[e] == '=' && AllGapIn(s, e + 1, b)
    decreases b - p
  {
    if OpGapIn(Neq, s, p + 1, b) {
      e := GapEnd(s, p + 1, b) + 1;
    } else {
      e := NeqHeadShape(s, p + 1, b);
    }
  }

  /** No head of `=`'s expression starts in a head of `!=`'s: the `=` of `!=` follows a
      rune that is neither a word nor a space rune. */
  lemma {:induction false} NeqHeadHasNoEqHead(x: String, p: nat)
    requires p <= |x| && IsHeadIn(Neq, x, 0, |x|)
    ensures !IsHeadIn(Eq, x, p, |x|)
  {
    var e := NeqHeadShape(x, 0, |x|);
    var g := EqHeadShape(x, p, |x|);
  }

  /** `x`, a quote and `y`, read by position. */
  lemma {:induction false} QuoteShape(x: String, y: String)
    ensures var u := x + [Quote] + y;
      && |u| == |x| + 1 + |y| && u[..|x| + 1] == x + [Quote]
      && Agree(x, u, 0, |x|, 0) && u[|x|] == Quote && Agree(y, u, 0, |y|, |x| + 1)
  {
  }

  /** No head of `=`'s expression starts anywhere in a head of `!=`'s. */
  lemma {:induction false} NeqHeadHasNoEqStart(x: String)
    requires IsHeadIn(Neq, x, 0, |x|)
    ensures HeadStartIn(Eq, x, 0, |x|).None?
  {
    forall p | 0 <= p < |x|
      ensures !IsHeadIn(Eq, x, p, |x|)
    {
      NeqHeadHasNoEqHead(x, p);
    }
    NoHeadNoStart(Eq, x, 0, |x|);
  }

  /** A pass copies a text up to and including its first quote when no head of the
      expression starts before that quote. */
  lemma {:induction false} PassCopiesHead(op: Op, u: String, x: String)
    requires |x| < |u| && Agree(x, u, 0, |x|, 0) && u[|x|] == Quote
    requires QuoteFreeIn(x, 0, |x|) && HeadStartIn(op, x, 0, |x|).None?
    ensures Pass(op, u) == x + [Quote] + PassFrom(op, u, |x| + 1)
  {
    QuoteFreeInAgree(x, u, 0, |x|, 0);
    QuoteAt(u, 0, |x|);
    HeadStartInAgree(op, x, u, 0, |x|, 0);
    PassToQuote(op, u, 0, |x|);
    SliceAgree(x, u, 0, |x|, 0);
  }

  /** The `=` pass leaves a `!=` comparison alone: it copies the identifier, the operator
      and the opening quote, and carries on from the rune after that quote. */
  lemma {:induction false} EqPassSkipsNeq(x: String, y: String)
    requires QuoteFreeIn(x, 0, |x|) && IsHeadIn(Neq, x, 0, |x|)
    ensures Pass(Eq, x + [Quote] + y) == x + [Quote] + PassFrom(Eq, x + [Quote] + y, |x| + 1)
  {
    QuoteShape(x, y);
    NeqHeadHasNoEqStart(x);
    PassCopiesHead(Eq, x + [Quote] + y, x);
  }

  /** The runes of an identifier's prefix and of the literal, read back out of a text
      that pairs them with quotes. */
  lemma {:induction false} PairSlices(u: String, x: String, lit: String, y: String, w: nat)
    requires Paired(u, x, lit, y) && w <= |x|
    ensures u[..w] == x[..w] && u[|x| + 1..|x| + 1 + |lit|] == lit
  {
    AgreeWithin(x, u, 0, |x|, 0, 0, w);
    SliceAgree(x, u, 0, w, 0);
    SliceAgree(lit, u, 0, |lit|, |x| + 1);
  }

  /** Where the expression matches, the pass emits the rewritten comparison and goes on
      after the match. */
  lemma {:induction false} PassAtMatch(op: Op, s: String, i: nat)
    requires i < |s| && Expression(op)(s, i).Some?
    ensures var m := Expression(op)(s, i).value;
      m.end <= |s| && PassFrom(op, s, i) == Rewrite(op, m.ident, m.literal) + PassFrom(op, s, m.end)
  {
    ExpressionFinds(op, s);
    ReplaceAt(Expression(op), Template(op), s, i);
  }

  /** In a text that pairs a comparison's head with a literal, the expression's head
      starts at the front, its identifier ends where the head's does, and the literal lies
      between the first two quotes. */
  lemma {:induction false} HeadInPair(op: Op, u: String, x: String, lit: String, y: String)
    requires Paired(u, x, lit, y)
    requires QuoteFreeIn(x, 0, |x|) && QuoteFreeIn(lit, 0, |lit|) && IsHeadIn(op, x, 0, |x|)
    ensures QuoteFrom(u, 0) == Some(|x|) && QuoteFrom(u, |x| + 1) == Some(|x| + 1 + |lit|)
    ensures HeadStartIn(op, u, 0, |x|) == Some(0) && WordEnd(u, 0, |x|) == WordEnd(x, 0, |x|)
  {
    PairQuotes(u, x, lit, y);
    IsHeadInAgree(op, x, u, 0, |x|, 0);
    WordEndAgree(x, u, 0, |x|, 0);
  }

  /** ... and so the expression matches at the front: the identifier and the literal. */
  lemma {:induction false} MatchInPair(op: Op, u: String, x: String, lit: String, y: String)
    requires Paired(u, x, lit, y)
    requires QuoteFrom(u, 0) == Some(|x|) && QuoteFrom(u, |x| + 1) == Some(|x| + 1 + |lit|)
    requires HeadStartIn(op, u, 0, |x|) == Some(0) && WordEnd(u, 0, |x|) == WordEnd(x, 0, |x|)
    ensures Expression(op)(u, 0) == Some(Match(x[..WordEnd(x, 0, |x|)], lit, |x| + |lit| + 2))
  {
    MatchAtHead(op, u, 0, |x|, |x| + 1 + |lit|);
    PairSlices(u, x, lit, y, WordEnd(x, 0, |x|));
  }

  /** A pass rewrites a comparison at the front of a text, `ident OP 'lit'`, into
      `LOWER(ident) OP LOWER('lit')` and carries on after its closing quote. */
  lemma {:induction false} ComparisonAt(op: Op, u: String, x: String, lit: String, y: String)
    requires Paired(u, x, lit, y)
    requires QuoteFreeIn(x, 0, |x|) && QuoteFreeIn(lit, 0, |lit|) && IsHeadIn(op, x, 0, |x|)
    ensures Pass(op, u) == Rewrite(op, x[..WordEnd(x, 0, |x|)], lit) + PassFrom(op, u, |x| + |lit| + 2)
  {
    HeadInPair(op, u, x, lit, y);
    MatchInPair(op, u, x, lit, y);
    PassAtMatch(op, u, 0);
  }

  lemma {:induction false} ComparisonRewritten(op: Op, x: String, lit: String, y: String)
    requires QuoteFreeIn(x, 0, |x|) && QuoteFreeIn(lit, 0, |lit|) && IsHeadIn(op, x, 0, |x|)
    ensures var u := x + [Quote] + lit + [Quote] + y;
      Pass(op, u) == Rewrite(op, x[..WordEnd(x, 0, |x|)], lit) + PassFrom(op, u, |x| + |lit| + 2)
  {
    PairShape(x, lit, y);
    ComparisonAt(op, x + [Quote] + lit + [Quote] + y, x, lit, y);
  }
}
