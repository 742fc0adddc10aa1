/**
 * The dashboard/card tRPC router (`src/server/trpc/api/ui/router.ts`):
 * slug derivation for new dashboards, the ownership predicate, the
 * currency ids a dashboard's cards need, and the decision logic of the
 * mutations (authorisation, not-found, xOrder choice, which repository
 * writes happen and with what arguments).
 *
 * Repository functions are not modelled; each handler takes the answers the
 * repository would give as parameters and returns, besides its result, the
 * trace of repository calls it makes, in program order.
 */
module UiRouter {
  import opened Wrappers
  import opened Ascii

  // =====================================================================
  // Sessions and ownership
  // =====================================================================

  datatype User = User(id: string, username: string)

  /** A signed-in session; `None` stands for the absent session. */
  datatype Session = Session(user: User)

  /** A viewer owns the dashboards of `username` when signed in as that user. */
  function IsOwner(session: Option<Session>, username: string): (owner: bool)
    ensures owner <==> exists u: User :: session == Some(Session(u)) && u.username == username
  {
    if session.Some? then
      assert session == Some(Session(session.value.user));
      session.value.user.username == username
    else false
  }

  // =====================================================================
  // Slugs
  // =====================================================================

  /** `trim()`: whitespace stripped from both ends. */
  function Trim(s: string): (r: string)
    ensures |r| == 0 || (!IsWhitespace(r[0]) && !IsWhitespace(r[|r| - 1]))
  {
    TrimEnd(TrimStart(s))
  }

  function TrimStart(s: string): (r: string)
    ensures |r| <= |s|
    ensures |r| > 0 ==> !IsWhitespace(r[0])
  {
    if |s| > 0 && IsWhitespace(s[0]) then TrimStart(s[1..]) else s
  }

  function TrimEnd(s: string): (r: string)
    ensures |r| <= |s|
    ensures |r| > 0 ==> !IsWhitespace(r[|r| - 1])
    ensures |s| > 0 && !IsWhitespace(s[0]) ==> |r| > 0 && r[0] == s[0]
  {
    if |s| > 0 && IsWhitespace(s[|s| - 1]) then TrimEnd(s[..|s| - 1]) else s
  }

  /** `trimStart` removes a run of whitespace and keeps the rest. */
  lemma {:induction false} TrimStartSuffix(s: string)
    ensures var r := TrimStart(s);
            && r == s[|s| - |r|..]
            && forall i :: 0 <= i < |s| - |r| ==> IsWhitespace(s[i])
  {
    if |s| > 0 && IsWhitespace(s[0]) {
      TrimStartSuffix(s[1..]);
      var r := TrimStart(s);
      assert s[1..][|s| - 1 - |r|..] == s[|s| - |r|..];
      forall i | 0 <= i < |s| - |r|
        ensures IsWhitespace(s[i])
      {
        if i > 0 {
          assert s[i] == s[1..][i - 1];
        }
      }
    }
  }

  /** The characters `/[^a-z0-9 ]/g` leaves in place. */
  predicate IsSlugSource(c: char) { IsLowerLetter(c) || IsDigit(c) || c == ' ' }

  /** The characters a finished slug is made of. */
  predicate IsSlugChar(c: char) { IsLowerLetter(c) || IsDigit(c) || c == '-' }

  predicate IsAlnum(c: char) { IsLowerLetter(c) || IsDigit(c) }

  predicate AllAlnum(s: string) {
    forall i :: 0 <= i < |s| ==> IsAlnum(s[i])
  }

  /** `replace(/[^a-z0-9 ]/g, "")`. */
  function KeepSlugSource(s: string): (r: string)
    ensures |r| <= |s|
    ensures forall i :: 0 <= i < |r| ==> IsSlugSource(r[i])
  {
    if |s| == 0 then ""
    else if IsSlugSource(s[0]) then [s[0]] + KeepSlugSource(s[1..])
    else KeepSlugSource(s[1..])
  }

  predicate NoDoubleWhitespace(s: string) {
    forall i :: 0 <= i < |s| - 1 ==> !(IsWhitespace(s[i]) && IsWhitespace(s[i + 1]))
  }

  predicate AllSlugSource(s: string) {
    forall i :: 0 <= i < |s| ==> IsSlugSource(s[i])
  }

  /** `replace(/\s+/g, " ")`: every maximal whitespace run becomes one space. */
  function CollapseWhitespace(s: string): (r: string)
    ensures NoDoubleWhitespace(r)
    ensures forall i :: 0 <= i < |r| ==> IsWhitespace(r[i]) ==> r[i] == ' '
    ensures AllSlugSource(s) ==> AllSlugSource(r)
    ensures |s| > 0 ==> |r| > 0 && r[0] == (if IsWhitespace(s[0]) then ' ' else s[0])
    decreases |s|
  {
    if |s| == 0 then ""
    else if IsWhitespace(s[0]) then
      TrimStartSuffix(s[1..]);
      [' '] + CollapseWhitespace(TrimStart(s[1..]))
    else [s[0]] + CollapseWhitespace(s[1..])
  }

  /** `replace(/ /g, "-")`. */
  function SpacesToHyphens(s: string): (r: string)
    ensures |r| == |s|
    ensures forall i :: 0 <= i < |s| ==> r[i] == (if s[i] == ' ' then '-' else s[i])
  {
    if |s| == 0 then "" else [if s[0] == ' ' then '-' else s[0]] + SpacesToHyphens(s[1..])
  }

  /**
   * `slugify(str)`: lower-case, trim, drop everything but `a-z`, `0-9` and
   * spaces, collapse whitespace runs (twice, as written), spaces to hyphens.
   */
  function Slugify(title: string): (slug: string)
    ensures forall i :: 0 <= i < |slug| ==> IsSlugChar(slug[i])
    ensures forall i :: 0 <= i < |slug| - 1 ==> !(slug[i] == '-' && slug[i + 1] == '-')
  {
    var kept := KeepSlugSource(Trim(Lower(title)));
    var twice := CollapseWhitespace(CollapseWhitespace(kept));
    assert AllSlugSource(twice);
    SpacesToHyphens(twice)
  }

  // --- alphanumeric content ----------------------------------------------

  /** The letters and digits of `s`, in order. */
  function Alnums(s: string): string
  {
    if |s| == 0 then "" else (if IsAlnum(s[0]) then [s[0]] else "") + Alnums(s[1..])
  }

  lemma {:induction false} AlnumsAppend(a: string, b: string)
    ensures Alnums(a + b) == Alnums(a) + Alnums(b)
  {
    if |a| == 0 {
      AppendEmpty(a, b);
    } else {
      var h := if IsAlnum(a[0]) then [a[0]] else "";
      TailOfAppend(a, b);
      calc {
        Alnums(a + b);
        h + Alnums(a[1..] + b);
        { AlnumsAppend(a[1..], b); }
        h + (Alnums(a[1..]) + Alnums(b));
        { AppendAssoc(h, Alnums(a[1..]), Alnums(b)); }
        (h + Alnums(a[1..])) + Alnums(b);
      }
    }
  }

  /** Removing whitespace never removes a letter or digit. */
  lemma {:induction false} AlnumsAllWhitespace(s: string)
    requires forall i :: 0 <= i < |s| ==> IsWhitespace(s[i])
    ensures Alnums(s) == ""
  {
    if |s| > 0 {
      AlnumsAllWhitespace(s[1..]);
    }
  }

  lemma {:induction false} AlnumsTrimStart(s: string)
    ensures Alnums(TrimStart(s)) == Alnums(s)
  {
    if |s| > 0 && IsWhitespace(s[0]) {
      AlnumsTrimStart(s[1..]);
    }
  }

  lemma {:induction false} AlnumsTrimEnd(s: string)
    ensures Alnums(TrimEnd(s)) == Alnums(s)
  {
    if |s| > 0 && IsWhitespace(s[|s| - 1]) {
      var init := s[..|s| - 1];
      AlnumsTrimEnd(init);
      assert s == init + [s[|s| - 1]];
      AlnumsAppend(init, [s[|s| - 1]]);
    }
  }

  lemma AlnumsTrim(s: string)
    ensures Alnums(Trim(s)) == Alnums(s)
  {
    AlnumsTrimStart(s);
    AlnumsTrimEnd(TrimStart(s));
  }

  lemma {:induction false} AlnumsKeep(s: string)
    ensures Alnums(KeepSlugSource(s)) == Alnums(s)
  {
    if |s| > 0 {
      AlnumsKeep(s[1..]);
      if IsSlugSource(s[0]) {
        assert KeepSlugSource(s) == [s[0]] + KeepSlugSource(s[1..]);
      }
    }
  }

  lemma {:induction false} AlnumsCollapse(s: string)
    ensures Alnums(CollapseWhitespace(s)) == Alnums(s)
    decreases |s|
  {
    if |s| > 0 {
      if IsWhitespace(s[0]) {
        var rest := TrimStart(s[1..]);
        TrimStartSuffix(s[1..]);
        AlnumsCollapse(rest);
        var dropped := s[1..][..|s[1..]| - |rest|];
        assert s[1..] == dropped + rest;
        AlnumsAppend(dropped, rest);
        AlnumsAllWhitespace(dropped);
        assert CollapseWhitespace(s) == [' '] + CollapseWhitespace(rest);
      } else {
        AlnumsCollapse(s[1..]);
        assert CollapseWhitespace(s) == [s[0]] + CollapseWhitespace(s[1..]);
      }
    }
  }

  lemma {:induction false} AlnumsHyphens(s: string)
    ensures Alnums(SpacesToHyphens(s)) == Alnums(s)
  {
    if |s| > 0 {
      AlnumsHyphens(s[1..]);
      assert SpacesToHyphens(s)[1..] == SpacesToHyphens(s[1..]);
    }
  }

  /** A slug keeps exactly the letters and digits of the lower-cased title, in order. */
  lemma SlugifyKeepsAlnums(title: string)
    ensures Alnums(Slugify(title)) == Alnums(Lower(title))
  {
    var trimmed := Trim(Lower(title));
    var kept := KeepSlugSource(trimmed);
    AlnumsTrim(Lower(title));
    AlnumsKeep(trimmed);
    AlnumsCollapse(kept);
    AlnumsCollapse(CollapseWhitespace(kept));
    AlnumsHyphens(CollapseWhitespace(CollapseWhitespace(kept)));
  }

  // --- the second whitespace collapse is redundant -----------------------

  /** A string with single-space whitespace runs is a fixed point of the collapse. */
  lemma {:induction false} CollapseFixedPoint(s: string)
    requires NoDoubleWhitespace(s)
    requires forall i :: 0 <= i < |s| ==> IsWhitespace(s[i]) ==> s[i] == ' '
    ensures CollapseWhitespace(s) == s
    decreases |s|
  {
    if |s| > 0 {
      CollapseFixedPoint(s[1..]);
      if IsWhitespace(s[0]) {
        assert TrimStart(s[1..]) == s[1..];
        assert [s[0]] + s[1..] == s;
      } else {
        assert [s[0]] + s[1..] == s;
      }
    }
  }

  /** The source applies `replace(/\s+/g, " ")` twice; the second pass changes nothing. */
  lemma CollapseIdempotent(s: string)
    ensures CollapseWhitespace(CollapseWhitespace(s)) == CollapseWhitespace(s)
  {
    CollapseFixedPoint(CollapseWhitespace(s));
  }

  /** A title made of lower-case letters and digits is its own slug. */
  lemma SlugifyAlnumIdentity(title: string)
    requires AllAlnum(title)
    ensures Slugify(title) == title
  {
    AlnumTrimIdentity(title);
    KeepAlnumIdentity(title);
    CollapseAlnumIdentity(title);
    HyphensAlnumIdentity(title);
    SlugifyStages(title, title, title, title);
  }

  predicate NoUpper(s: string) {
    forall i :: 0 <= i < |s| ==> !IsUpper(s[i])
  }

  lemma LowerIdentity(s: string)
    requires NoUpper(s)
    ensures Lower(s) == s
  {
    var r := Lower(s);
    forall i | 0 <= i < |s|
      ensures r[i] == s[i]
    {
    }
  }

  lemma AlnumTrimIdentity(s: string)
    requires AllAlnum(s)
    ensures Trim(Lower(s)) == s
  {
    if |s| == 0 {
      assert Lower(s) == s && Trim(s) == s;
    } else {
      assert NoUpper(s);
      LowerTrimIdentity(s);
    }
  }

  lemma {:induction false} KeepAlnumIdentity(s: string)
    requires AllAlnum(s)
    ensures KeepSlugSource(s) == s
  {
    if |s| > 0 {
      KeepAlnumIdentity(s[1..]);
      assert [s[0]] + s[1..] == s;
    }
  }

  lemma CollapseAlnumIdentity(s: string)
    requires AllAlnum(s)
    ensures CollapseWhitespace(s) == s
  {
    CollapseFixedPoint(s);
  }

  lemma HyphensAlnumIdentity(s: string)
    requires AllAlnum(s)
    ensures SpacesToHyphens(s) == s
  {
  }

  /** A non-empty run of lower-case letters and digits. */
  predicate IsWord(s: string) {
    |s| > 0 && AllAlnum(s)
  }

  /** Lower-casing and trimming leave alone a string with no capitals and no edge whitespace. */
  lemma LowerTrimIdentity(s: string)
    requires |s| > 0 && !IsWhitespace(s[0]) && !IsWhitespace(s[|s| - 1])
    requires NoUpper(s)
    ensures Trim(Lower(s)) == s
  {
    LowerIdentity(s);
    assert TrimStart(s) == s;
    assert TrimEnd(s) == s;
  }

  lemma {:induction false} KeepAppend(a: string, b: string)
    ensures KeepSlugSource(a + b) == KeepSlugSource(a) + KeepSlugSource(b)
  {
    if |a| > 0 {
      var h := if IsSlugSource(a[0]) then [a[0]] else "";
      TailOfAppend(a, b);
      calc {
        KeepSlugSource(a + b);
        h + KeepSlugSource(a[1..] + b);
        { KeepAppend(a[1..], b); }
        h + (KeepSlugSource(a[1..]) + KeepSlugSource(b));
        { AppendAssoc(h, KeepSlugSource(a[1..]), KeepSlugSource(b)); }
        (h + KeepSlugSource(a[1..])) + KeepSlugSource(b);
      }
    } else {
      AppendEmpty(a, b);
    }
  }

  lemma {:induction false} KeepSourceIdentity(s: string)
    requires AllSlugSource(s)
    ensures KeepSlugSource(s) == s
  {
    if |s| > 0 {
      KeepSourceIdentity(s[1..]);
      assert [s[0]] + s[1..] == s;
    }
  }

  /** Each character of two words joined by `sep`: `sep` at the join, letters and digits elsewhere. */
  lemma JoinedWordChars(a: string, sep: string, b: string)
    requires IsWord(a) && IsWord(b) && |sep| == 1 && !IsUpper(sep[0])
    ensures var t := a + sep + b;
            && |t| == |a| + 1 + |b| && t[|a|] == sep[0]
            && t[0] == a[0] && t[|t| - 1] == b[|b| - 1]
            && (forall i :: 0 <= i < |t| && i != |a| ==> IsAlnum(t[i]))
            && NoUpper(t)
            && (IsSlugSource(sep[0]) ==> AllSlugSource(t))
  {
    var t := a + sep + b;
    forall i | 0 <= i < |t| && i != |a|
      ensures IsAlnum(t[i])
    {
      if i < |a| {
        assert t[i] == a[i];
      } else {
        assert t[i] == b[i - |a| - 1];
      }
    }
  }

  /**
   * Words joined by a space become words joined by a hyphen; words joined by
   * a hyphen lose it. So `slugify` is not idempotent: a second pass removes
   * the hyphens of the first.
   */
  lemma SlugifyNotIdempotent(a: string, b: string)
    requires IsWord(a) && IsWord(b)
    ensures Slugify(a + " " + b) == a + "-" + b
    ensures Slugify(a + "-" + b) == a + b
    ensures Slugify(Slugify(a + " " + b)) != Slugify(a + " " + b)
  {
    SpacedWords(a, b);
    HyphenatedWords(a, b);
  }

  /** `slugify` read off its stages, for a filtered string the collapse leaves alone. */
  lemma SlugifyStages(title: string, trimmed: string, kept: string, slug: string)
    requires Trim(Lower(title)) == trimmed
    requires KeepSlugSource(trimmed) == kept
    requires CollapseWhitespace(kept) == kept
    requires SpacesToHyphens(kept) == slug
    ensures Slugify(title) == slug
  {
  }

  lemma SpacedWords(a: string, b: string)
    requires IsWord(a) && IsWord(b)
    ensures Slugify(a + " " + b) == a + "-" + b
  {
    var t := a + " " + b;
    JoinedWordChars(a, " ", b);
    LowerTrimIdentity(t);
    KeepSourceIdentity(t);
    SpacedCollapse(a, b);
    SpacedHyphens(a, b);
    SlugifyStages(t, t, t, a + "-" + b);
  }

  lemma SpacedCollapse(a: string, b: string)
    requires IsWord(a) && IsWord(b)
    ensures CollapseWhitespace(a + " " + b) == a + " " + b
  {
    var t := a + " " + b;
    JoinedWordChars(a, " ", b);
    forall i | 0 <= i < |t| - 1
      ensures !(IsWhitespace(t[i]) && IsWhitespace(t[i + 1]))
    {
      if i == |a| {
        assert IsAlnum(t[i + 1]);
      }
    }
    CollapseFixedPoint(t);
  }

  lemma SpacedHyphens(a: string, b: string)
    requires IsWord(a) && IsWord(b)
    ensures SpacesToHyphens(a + " " + b) == a + "-" + b
  {
    var t := a + " " + b;
    var h := SpacesToHyphens(t);
    var want := a + "-" + b;
    JoinedWordChars(a, " ", b);
    JoinedWordChars(a, "-", b);
    forall i | 0 <= i < |t|
      ensures h[i] == want[i]
    {
      if i < |a| {
        assert t[i] == a[i] && want[i] == a[i];
      } else if i > |a| {
        assert t[i] == b[i - |a| - 1] && want[i] == b[i - |a| - 1];
      }
    }
  }

  lemma HyphenatedWords(a: string, b: string)
    requires IsWord(a) && IsWord(b)
    ensures Slugify(a + "-" + b) == a + b
  {
    var t := a + "-" + b;
    JoinedWordChars(a, "-", b);
    LowerTrimIdentity(t);
    HyphenatedKeep(a, b);
    var ab := a + b;
    AlnumAppend(a, b);
    CollapseAlnumIdentity(ab);
    HyphensAlnumIdentity(ab);
    SlugifyStages(t, t, ab, ab);
  }

  lemma AlnumAppend(a: string, b: string)
    requires AllAlnum(a) && AllAlnum(b)
    ensures AllAlnum(a + b)
  {
    var ab := a + b;
    forall i | 0 <= i < |ab|
      ensures IsAlnum(ab[i])
    {
      if i < |a| {
        assert ab[i] == a[i];
      } else {
        assert ab[i] == b[i - |a|];
      }
    }
  }

  lemma HyphenatedKeep(a: string, b: string)
    requires IsWord(a) && IsWord(b)
    ensures KeepSlugSource(a + "-" + b) == a + b
  {
    var t := a + "-" + b;
    calc {
      KeepSlugSource(t);
      { AppendAssoc(a, "-", b); }
      KeepSlugSource(a + ("-" + b));
      { KeepAppend(a, "-" + b); }
      KeepSlugSource(a) + KeepSlugSource("-" + b);
      { KeepAppend("-", b); }
      KeepSlugSource(a) + (KeepSlugSource("-") + KeepSlugSource(b));
      { assert KeepSlugSource("-") == ""; KeepAlnumIdentity(a); KeepAlnumIdentity(b); }
      a + ("" + b);
      { assert "" + b == b; }
      a + b;
    }
  }

  /**
   * Trimming comes before filtering: a word followed by a space and
   * punctuation keeps the space, which becomes a trailing hyphen.
   */
  lemma SlugifyTrailingHyphen(w: string)
    requires IsWord(w)
    ensures Slugify(w + " !") == w + "-"
  {
    var t := w + " !";
    var k := w + " ";
    TrailingTrim(w);
    TrailingKeep(w);
    forall i | 0 <= i < |k| - 1
      ensures !(IsWhitespace(k[i]) && IsWhitespace(k[i + 1]))
    {
      assert k[i] == w[i];
    }
    CollapseFixedPoint(k);
    TrailingHyphens(w);
    SlugifyStages(t, t, k, w + "-");
  }

  lemma TrailingTrim(w: string)
    requires IsWord(w)
    ensures Trim(Lower(w + " !")) == w + " !"
  {
    var t := w + " !";
    assert t[0] == w[0] && t[|t| - 1] == '!';
    assert NoUpper(t) by {
      forall i | 0 <= i < |t|
        ensures !IsUpper(t[i])
      {
        if i < |w| {
          assert t[i] == w[i];
        }
      }
    }
    LowerTrimIdentity(t);
  }

  lemma TrailingKeep(w: string)
    requires IsWord(w)
    ensures KeepSlugSource(w + " !") == w + " "
  {
    var t := w + " !";
    calc {
      KeepSlugSource(t);
      { KeepAppend(w, " !"); }
      KeepSlugSource(w) + KeepSlugSource(" !");
      { KeepAlnumIdentity(w); assert KeepSlugSource("!") == ""; assert KeepSlugSource(" !") == " "; }
      w + " ";
    }
  }

  lemma TrailingHyphens(w: string)
    requires IsWord(w)
    ensures SpacesToHyphens(w + " ") == w + "-"
  {
    var k := w + " ";
    var h := SpacesToHyphens(k);
    var want := w + "-";
    forall i | 0 <= i < |k|
      ensures h[i] == want[i]
    {
      if i < |w| {
        assert k[i] == w[i] && want[i] == w[i];
      }
    }
  }

  /**
   * `addRandomStringToSlug`: the slug, a hyphen and the first four characters
   * of a fresh random UUID (given here as `uuid`).
   */
  function AddRandomStringToSlug(slug: string, uuid: string): (r: string)
    requires |uuid| >= 4
    ensures |r| == |slug| + 5
    ensures r[..|slug|] == slug && r[|slug|] == '-' && r[|slug| + 1..] == uuid[..4]
  {
    slug + "-" + uuid[..4]
  }

  /**
   * A suffixed slug is longer than the slug it extends, so never equal to
   * it, and with the lower-case hex digits `randomUUID` starts with it is
   * still made of slug characters. A slug already ending in a hyphen gets a
   * doubled hyphen.
   */
  lemma SuffixedSlug(title: string, uuid: string)
    requires |uuid| >= 4 && AllLowerHex(uuid[..4])
    ensures var slug := Slugify(title);
            var r := AddRandomStringToSlug(slug, uuid);
            && r != slug
            && (forall i :: 0 <= i < |r| ==> IsSlugChar(r[i]))
            && (|slug| > 0 && slug[|slug| - 1] == '-' ==> r[|slug| - 1] == '-' && r[|slug|] == '-')
  {
    var slug := Slugify(title);
    var r := AddRandomStringToSlug(slug, uuid);
    forall i | 0 <= i < |r|
      ensures IsSlugChar(r[i])
    {
      if i < |slug| {
        assert r[i] == r[..|slug|][i];
      } else if i > |slug| {
        assert r[i] == r[|slug| + 1..][i - |slug| - 1] == uuid[..4][i - |slug| - 1];
      }
    }
    if |slug| > 0 && slug[|slug| - 1] == '-' {
      assert r[|slug| - 1] == r[..|slug|][|slug| - 1];
    }
  }

  /** The slug a new dashboard receives: unchanged when free, suffixed otherwise. */
  function ResolveSlug(slug: string, isAvailable: bool, uuid: string): (r: string)
    requires |uuid| >= 4
    ensures isAvailable ==> r == slug
    ensures !isAvailable ==> |r| == |slug| + 5 && r[..|slug|] == slug && r[|slug|] == '-'
                             && r[|slug| + 1..] == uuid[..4]
  {
    if isAvailable then slug else AddRandomStringToSlug(slug, uuid)
  }

  // =====================================================================
  // Cards and the currency ids they need
  // =====================================================================

  datatype CardValue = CardValue(cardTypeInputId: string, value: string)

  /** A stored card; `values` may be absent. */
  datatype Card = Card(id: string, cardTypeId: string, values: Option<seq<CardValue>>)

  /** A value that names a currency the card needs fetched. */
  predicate IsCurrencyValue(cardTypeId: string, v: CardValue) {
    || (cardTypeId == "calculator" && v.cardTypeInputId == "calculator_currency_id")
    || (cardTypeId == "currency" &&
        (v.cardTypeInputId == "currency_currency_id_base" || v.cardTypeInputId == "currency_currency_id_quote"))
  }

  /** The currency ids among one card's values, in value order. */
  function CurrencyValues(cardTypeId: string, vs: seq<CardValue>): seq<string>
  {
    if |vs| == 0 then []
    else (if IsCurrencyValue(cardTypeId, vs[0]) then [vs[0].value] else []) + CurrencyValues(cardTypeId, vs[1..])
  }

  function CardCurrencyIds(card: Card): seq<string>
  {
    if card.values.None? then [] else CurrencyValues(card.cardTypeId, card.values.value)
  }

  /** Reference definition: the cards' currency ids, card order then value order. */
  function CurrencyIds(cards: seq<Card>): seq<string>
  {
    if |cards| == 0 then [] else CardCurrencyIds(cards[0]) + CurrencyIds(cards[1..])
  }

  lemma {:induction false} CurrencyValuesAppend(t: string, a: seq<CardValue>, b: seq<CardValue>)
    ensures CurrencyValues(t, a + b) == CurrencyValues(t, a) + CurrencyValues(t, b)
  {
    if |a| == 0 {
      AppendEmpty(a, b);
    } else {
      var h := if IsCurrencyValue(t, a[0]) then [a[0].value] else [];
      TailOfAppend(a, b);
      calc {
        CurrencyValues(t, a + b);
        h + CurrencyValues(t, a[1..] + b);
        { CurrencyValuesAppend(t, a[1..], b); }
        h + (CurrencyValues(t, a[1..]) + CurrencyValues(t, b));
        { AppendAssoc(h, CurrencyValues(t, a[1..]), CurrencyValues(t, b)); }
        (h + CurrencyValues(t, a[1..])) + CurrencyValues(t, b);
      }
    }
  }

  /** Collection order follows card order: the ids of a concatenation concatenate. */
  lemma {:induction false} CurrencyIdsAppend(a: seq<Card>, b: seq<Card>)
    ensures CurrencyIds(a + b) == CurrencyIds(a) + CurrencyIds(b)
  {
    if |a| == 0 {
      AppendEmpty(a, b);
    } else {
      var h := CardCurrencyIds(a[0]);
      TailOfAppend(a, b);
      calc {
        CurrencyIds(a + b);
        h + CurrencyIds(a[1..] + b);
        { CurrencyIdsAppend(a[1..], b); }
        h + (CurrencyIds(a[1..]) + CurrencyIds(b));
        { AppendAssoc(h, CurrencyIds(a[1..]), CurrencyIds(b)); }
        (h + CurrencyIds(a[1..])) + CurrencyIds(b);
      }
    }
  }

  /** Cards of other types, and cards without values, contribute no ids. */
  lemma OtherCardsContributeNothing(card: Card)
    requires card.values.None? || (card.cardTypeId != "calculator" && card.cardTypeId != "currency")
    ensures CardCurrencyIds(card) == []
  {
    if card.values.Some? {
      NoCurrencyValues(card.cardTypeId, card.values.value);
    }
  }

  lemma {:induction false} NoCurrencyValues(t: string, vs: seq<CardValue>)
    requires t != "calculator" && t != "currency"
    ensures CurrencyValues(t, vs) == []
  {
    if |vs| > 0 {
      NoCurrencyValues(t, vs[1..]);
    }
  }

  lemma {:induction false} CurrencyValuesSources(t: string, vs: seq<CardValue>, x: string)
    ensures x in CurrencyValues(t, vs) <==> exists j :: 0 <= j < |vs| && IsCurrencyValue(t, vs[j]) && vs[j].value == x
  {
    if |vs| > 0 {
      CurrencyValuesSources(t, vs[1..], x);
      if x in CurrencyValues(t, vs[1..]) {
        var j :| 0 <= j < |vs[1..]| && IsCurrencyValue(t, vs[1..][j]) && vs[1..][j].value == x;
        assert vs[j + 1] == vs[1..][j];
      }
      if exists j :: 0 <= j < |vs| && IsCurrencyValue(t, vs[j]) && vs[j].value == x {
        var j :| 0 <= j < |vs| && IsCurrencyValue(t, vs[j]) && vs[j].value == x;
        if j > 0 {
          assert vs[1..][j - 1] == vs[j];
        }
      }
    }
  }

  /** A value of some card that names a currency. */
  predicate IsCurrencySource(cards: seq<Card>, i: int, j: int, x: string)
  {
    && 0 <= i < |cards| && cards[i].values.Some?
    && 0 <= j < |cards[i].values.value|
    && IsCurrencyValue(cards[i].cardTypeId, cards[i].values.value[j])
    && cards[i].values.value[j].value == x
  }

  /**
   * Every collected id comes from a `calculator_currency_id` value of a
   * calculator card or a base/quote value of a currency card, and every
   * such value is collected.
   */
  lemma {:induction false} CurrencyIdsSources(cards: seq<Card>, x: string)
    ensures x in CurrencyIds(cards) <==> exists i, j :: IsCurrencySource(cards, i, j, x)
  {
    if |cards| > 0 {
      CurrencyIdsSources(cards[1..], x);
      var c := cards[0];
      if c.values.Some? {
        CurrencyValuesSources(c.cardTypeId, c.values.value, x);
      }
      if x in CardCurrencyIds(c) {
        var j :| 0 <= j < |c.values.value| && IsCurrencyValue(c.cardTypeId, c.values.value[j]) && c.values.value[j].value == x;
        assert IsCurrencySource(cards, 0, j, x);
      }
      if x in CurrencyIds(cards[1..]) {
        var i, j :| IsCurrencySource(cards[1..], i, j, x);
        assert IsCurrencySource(cards, i + 1, j, x);
      }
      if exists i, j :: IsCurrencySource(cards, i, j, x) {
        var i, j :| IsCurrencySource(cards, i, j, x);
        if i > 0 {
          assert IsCurrencySource(cards[1..], i - 1, j, x);
        } else {
          assert x in CardCurrencyIds(c);
        }
      }
    }
  }

  /** One card's step of the `getCards` scan. */
  method CollectCardCurrencyIds(card: Card) returns (ids: seq<string>)
    ensures ids == CardCurrencyIds(card)
  {
    ids := [];
    if card.cardTypeId == "calculator" && card.values.Some? {
      var values := card.values.value;
      for k := 0 to |values|
        invariant ids == CurrencyValues(card.cardTypeId, values[..k])
      {
        CurrencyValuesAppend(card.cardTypeId, values[..k], [values[k]]);
        assert values[..k + 1] == values[..k] + [values[k]];
        if values[k].cardTypeInputId == "calculator_currency_id" {
          ids := ids + [values[k].value];
        }
      }
      assert values[..|values|] == values;
    }
    if card.cardTypeId == "currency" && card.values.Some? {
      var values := card.values.value;
      for k := 0 to |values|
        invariant ids == CurrencyValues(card.cardTypeId, values[..k])
      {
        CurrencyValuesAppend(card.cardTypeId, values[..k], [values[k]]);
        assert values[..k + 1] == values[..k] + [values[k]];
        if values[k].cardTypeInputId == "currency_currency_id_base"
           || values[k].cardTypeInputId == "currency_currency_id_quote" {
          ids := ids + [values[k].value];
        }
      }
      assert values[..|values|] == values;
    }
    if card.values.None? || (card.cardTypeId != "calculator" && card.cardTypeId != "currency") {
      OtherCardsContributeNothing(card);
    }
  }

  /** The `forEach`/`push` scan of `getCards`, before `cleanAndSortArray`. */
  method CollectCurrencyIds(cards: seq<Card>) returns (ids: seq<string>)
    ensures ids == CurrencyIds(cards)
  {
    ids := [];
    for n := 0 to |cards|
      invariant ids == CurrencyIds(cards[..n])
    {
      var cardIds := CollectCardCurrencyIds(cards[n]);
      ids := ids + cardIds;
      CurrencyIdsAppend(cards[..n], [cards[n]]);
      assert cards[..n + 1] == cards[..n] + [cards[n]];
      assert CurrencyIds([cards[n]]) == cardIds;
    }
    assert cards[..|cards|] == cards;
  }

  // =====================================================================
  // Handlers
  // =====================================================================

  /** A dashboard as returned by the repository. */
  datatype Dashboard = Dashboard(id: string, slug: string, title: string)

  /** A card value as the add-card dialog sends it. */
  datatype CardValueInput = CardValueInput(cardTypeInputId: string, value: string, xOrder: int)

  /** A card value row written to the repository, tagged with its card. */
  datatype CardValueRow = CardValueRow(cardTypeInputId: string, value: string, xOrder: int, cardId: string)

  datatype CardOrder = CardOrder(id: string, xOrder: int)

  datatype XOrderPreference = First | Last

  /** A call into the repository, with the arguments the handler passes. */
  datatype RepoCall =
    | GetDashboardCall(isOwner: bool, username: string, dashboardSlug: string)
    | GetDashboardsCall(isOwner: bool, username: string)
    | GetCardsCall(isOwner: bool, username: string, dashboardSlug: string)
    | GetMaximumCardXOrderCall(dashboardId: string)
    | CreateCardCall(cardTypeId: string, dashboardId: string, xOrder: int)
    | CreateCardValuesCall(rows: seq<CardValueRow>)
    | DeleteCardsCall(userId: string, ids: seq<string>)
    | ReorderCardsCall(userId: string, orders: seq<CardOrder>)
    | IsDashboardSlugAvailableCall(slug: string, userId: string)
    | GetMaximumDashboardXOrderCall(userId: string)
    | CreateDashboardCall(userId: string, slug: string, title: string, icon: Option<string>, xOrder: int)
    | RenameDashboardCall(title: string, slug: string, userId: string)

  /** The tRPC error codes the router raises. */
  datatype ErrorCode = Unauthorized | NotFound | BadRequest

  /** What a handler did: the repository calls it made and what it returned or threw. */
  datatype Reply<T> = Reply(calls: seq<RepoCall>, result: Result<T, ErrorCode>)

  // --- queries ---------------------------------------------------------------

  datatype DashboardsReply<D> = DashboardsReply(dashboards: D, isOwner: bool)

  /** `getDashboards`: the repository is asked as owner exactly when the viewer owns `username`. */
  function GetDashboards<D>(session: Option<Session>, username: string, repoAnswer: D): (r: Reply<DashboardsReply<D>>)
    ensures r.result.Ok? && r.result.value.dashboards == repoAnswer
    ensures r.calls == [GetDashboardsCall(r.result.value.isOwner, username)]
    ensures r.result.value.isOwner <==> session.Some? && session.value.user.username == username
  {
    var isOwner := IsOwner(session, username);
    Reply([GetDashboardsCall(isOwner, username)], Ok(DashboardsReply(repoAnswer, isOwner)))
  }

  /**
   * `getCards`: the cards and dashboard are read with the viewer's ownership,
   * and the currency ids of the cards are the ones handed on for fetching
   * (`cleanAndSortArray` and `getCurrencies` are not modelled).
   */
  function GetCardsPlan(session: Option<Session>, username: string, dashboardSlug: string, cards: seq<Card>)
    : (r: (seq<RepoCall>, seq<string>))
    ensures var owner := session.Some? && session.value.user.username == username;
            r.0 == [GetCardsCall(owner, username, dashboardSlug), GetDashboardCall(owner, username, dashboardSlug)]
    ensures forall x :: x in r.1 <==> exists i, j :: IsCurrencySource(cards, i, j, x)
  {
    var isOwner := IsOwner(session, username);
    var ids := CurrencyIds(cards);
    assert forall x :: x in ids <==> exists i, j :: IsCurrencySource(cards, i, j, x) by {
      forall x
        ensures x in ids <==> exists i, j :: IsCurrencySource(cards, i, j, x)
      {
        CurrencyIdsSources(cards, x);
      }
    }
    ([GetCardsCall(isOwner, username, dashboardSlug), GetDashboardCall(isOwner, username, dashboardSlug)], ids)
  }

  /**
   * The two read handlers agree on ownership: each repository read asks as
   * owner exactly when the viewer is signed in as `username`, so an
   * anonymous viewer never reads as owner.
   */
  lemma ReadsAskAsOwnerOnlyForOwner<D>(session: Option<Session>, username: string, dashboardSlug: string,
                                       cards: seq<Card>, repoAnswer: D)
    ensures var dashboards := GetDashboards(session, username, repoAnswer).calls;
            var lookups := GetCardsPlan(session, username, dashboardSlug, cards).0;
            && |dashboards| == 1 && |lookups| == 2
            && (dashboards[0].isOwner <==> session.Some? && session.value.user.username == username)
            && lookups[0].isOwner == dashboards[0].isOwner && lookups[1].isOwner == dashboards[0].isOwner
            && (session.None? ==> !dashboards[0].isOwner)
  {
  }

  // --- createCard ------------------------------------------------------------

  /**
   * The position `createCard` gives the new card, `None` standing for the
   * still-undefined value its `BAD_REQUEST` guard tests.
   */
  function SelectCardXOrder(xOrder: Option<int>, preference: Option<XOrderPreference>, maximumXOrder: int): Option<int>
  {
    if xOrder.None? && preference == Some(First) then Some(0)
    else if xOrder.None? then Some(maximumXOrder + 1)
    else xOrder
  }

  /** An explicit xOrder wins, then "first" gives 0, otherwise the card goes last; never undefined. */
  lemma SelectCardXOrderDefined(xOrder: Option<int>, preference: Option<XOrderPreference>, maximumXOrder: int)
    ensures SelectCardXOrder(xOrder, preference, maximumXOrder).Some?
    ensures xOrder.Some? ==> SelectCardXOrder(xOrder, preference, maximumXOrder) == xOrder
    ensures xOrder.None? && preference == Some(First) ==> SelectCardXOrder(xOrder, preference, maximumXOrder) == Some(0)
    ensures xOrder.None? && preference != Some(First) ==> SelectCardXOrder(xOrder, preference, maximumXOrder) == Some(maximumXOrder + 1)
  {
  }

  /** `values.map((v) => ({...v, cardId}))`. */
  function TagValues(values: seq<CardValueInput>, cardId: string): (rows: seq<CardValueRow>)
    ensures |rows| == |values|
    ensures forall i :: 0 <= i < |values| ==>
      rows[i] == CardValueRow(values[i].cardTypeInputId, values[i].value, values[i].xOrder, cardId)
  {
    if |values| == 0 then []
    else [CardValueRow(values[0].cardTypeInputId, values[0].value, values[0].xOrder, cardId)] + TagValues(values[1..], cardId)
  }

  datatype CreateCardInput = CreateCardInput(
    cardTypeId: string,
    dashboardSlug: string,
    xOrder: Option<int>,
    xOrderPreference: Option<XOrderPreference>,
    values: seq<CardValueInput>)

  datatype CreatedCard = CreatedCard(cardId: string, cardTypeId: string)

  /**
   * `createCard`. `dashboard` is what `getDashboard` answers for the session
   * user's `dashboardSlug`, `maximumXOrder` what `getMaximumCardXOrder`
   * answers, `newCardId` the id `createCard` returns.
   */
  function CreateCard(session: Option<Session>, input: CreateCardInput, dashboard: Option<Dashboard>,
                      maximumXOrder: int, newCardId: string): (r: Reply<CreatedCard>)
    ensures session.None? ==> r == Reply([], Err(Unauthorized))
    ensures session.Some? && dashboard.None? ==>
      r == Reply([GetDashboardCall(true, session.value.user.username, input.dashboardSlug)], Err(NotFound))
    ensures r.result != Err(BadRequest)
    ensures r.result.Ok? <==> session.Some? && dashboard.Some?
    ensures r.result.Ok? ==> r.result.value == CreatedCard(newCardId, input.cardTypeId)
  {
    if session.None? then Reply([], Err(Unauthorized))
    else
      var lookup := GetDashboardCall(true, session.value.user.username, input.dashboardSlug);
      if dashboard.None? then Reply([lookup], Err(NotFound))
      else
        var dashboardId := dashboard.value.id;
        var readMaximum :=
          if input.xOrder.None? && input.xOrderPreference != Some(First) then [GetMaximumCardXOrderCall(dashboardId)]
          else [];
        var selected := SelectCardXOrder(input.xOrder, input.xOrderPreference, maximumXOrder);
        if selected.None? then Reply([lookup] + readMaximum, Err(BadRequest))
        else
          var insert := CreateCardCall(input.cardTypeId, dashboardId, selected.value);
          var writeValues :=
            if |input.values| > 0 then [CreateCardValuesCall(TagValues(input.values, newCardId))] else [];
          Reply([lookup] + readMaximum + [insert] + writeValues, Ok(CreatedCard(newCardId, input.cardTypeId)))
  }

  /**
   * On success the trace is exactly: the dashboard lookup, the maximum read
   * only when it is needed, the card insert at the chosen position, and last
   * the value rows, written exactly when there are values, each one tagged
   * with the new card id. No other call is made.
   */
  lemma CreateCardWrites(session: Option<Session>, input: CreateCardInput, dashboard: Option<Dashboard>,
                         maximumXOrder: int, newCardId: string)
    requires session.Some? && dashboard.Some?
    ensures var r := CreateCard(session, input, dashboard, maximumXOrder, newCardId);
            var needMaximum := input.xOrder.None? && input.xOrderPreference != Some(First);
            var position := if input.xOrder.Some? then input.xOrder.value
                            else if input.xOrderPreference == Some(First) then 0
                            else maximumXOrder + 1;
            && |r.calls| == 2 + (if needMaximum then 1 else 0) + (if |input.values| > 0 then 1 else 0)
            && r.calls[0] == GetDashboardCall(true, session.value.user.username, input.dashboardSlug)
            && (needMaximum ==> r.calls[1] == GetMaximumCardXOrderCall(dashboard.value.id))
            && r.calls[if needMaximum then 2 else 1] == CreateCardCall(input.cardTypeId, dashboard.value.id, position)
            && (|input.values| > 0 ==> r.calls[|r.calls| - 1] == CreateCardValuesCall(TagValues(input.values, newCardId)))
            && (GetMaximumCardXOrderCall(dashboard.value.id) in r.calls <==> needMaximum)
            && CreateCardCall(input.cardTypeId, dashboard.value.id, position) in r.calls
            && (exists k :: 0 <= k < |r.calls| && r.calls[k].CreateCardValuesCall?) == (|input.values| > 0)
            && (forall k :: 0 <= k < |r.calls| && r.calls[k].CreateCardValuesCall? ==>
                  && |r.calls[k].rows| == |input.values|
                  && forall i :: 0 <= i < |input.values| ==>
                       && r.calls[k].rows[i].cardId == newCardId
                       && r.calls[k].rows[i].cardTypeInputId == input.values[i].cardTypeInputId
                       && r.calls[k].rows[i].value == input.values[i].value
                       && r.calls[k].rows[i].xOrder == input.values[i].xOrder)
  {
    CreateCardOrder(session, input, dashboard, maximumXOrder, newCardId);
    CreateCardValueRows(session, input, dashboard, maximumXOrder, newCardId);
  }

  /** The order and positions of the calls a successful `createCard` makes. */
  lemma CreateCardOrder(session: Option<Session>, input: CreateCardInput, dashboard: Option<Dashboard>,
                         maximumXOrder: int, newCardId: string)
    requires session.Some? && dashboard.Some?
    ensures var r := CreateCard(session, input, dashboard, maximumXOrder, newCardId);
            var needMaximum := input.xOrder.None? && input.xOrderPreference != Some(First);
            var position := if input.xOrder.Some? then input.xOrder.value
                            else if input.xOrderPreference == Some(First) then 0
                            else maximumXOrder + 1;
            && |r.calls| == 2 + (if needMaximum then 1 else 0) + (if |input.values| > 0 then 1 else 0)
            && r.calls[0] == GetDashboardCall(true, session.value.user.username, input.dashboardSlug)
            && (needMaximum ==> r.calls[1] == GetMaximumCardXOrderCall(dashboard.value.id))
            && r.calls[if needMaximum then 2 else 1] == CreateCardCall(input.cardTypeId, dashboard.value.id, position)
            && (|input.values| > 0 ==> r.calls[|r.calls| - 1] == CreateCardValuesCall(TagValues(input.values, newCardId)))
            && (GetMaximumCardXOrderCall(dashboard.value.id) in r.calls <==> needMaximum)
            && CreateCardCall(input.cardTypeId, dashboard.value.id, position) in r.calls
  {
    var r := CreateCard(session, input, dashboard, maximumXOrder, newCardId);
    var needMaximum := input.xOrder.None? && input.xOrderPreference != Some(First);
    var readMaximum := if needMaximum then [GetMaximumCardXOrderCall(dashboard.value.id)] else [];
    var writeValues :=
      if |input.values| > 0 then [CreateCardValuesCall(TagValues(input.values, newCardId))] else [];
    var position := if input.xOrder.Some? then input.xOrder.value
                    else if input.xOrderPreference == Some(First) then 0
                    else maximumXOrder + 1;
    var lookup := GetDashboardCall(true, session.value.user.username, input.dashboardSlug);
    var insert := CreateCardCall(input.cardTypeId, dashboard.value.id, position);
    assert r.calls == [lookup] + readMaximum + [insert] + writeValues;
    TraceShape(lookup, readMaximum, insert, writeValues);
  }

  /** The value rows a successful `createCard` writes, and that it writes them once at most. */
  lemma CreateCardValueRows(session: Option<Session>, input: CreateCardInput, dashboard: Option<Dashboard>,
                         maximumXOrder: int, newCardId: string)
    requires session.Some? && dashboard.Some?
    ensures var r := CreateCard(session, input, dashboard, maximumXOrder, newCardId);
            var needMaximum := input.xOrder.None? && input.xOrderPreference != Some(First);
            && (exists k :: 0 <= k < |r.calls| && r.calls[k].CreateCardValuesCall?) == (|input.values| > 0)
            && (forall k :: 0 <= k < |r.calls| && r.calls[k].CreateCardValuesCall? ==>
                  && |r.calls[k].rows| == |input.values|
                  && forall i :: 0 <= i < |input.values| ==>
                       && r.calls[k].rows[i].cardId == newCardId
                       && r.calls[k].rows[i].cardTypeInputId == input.values[i].cardTypeInputId
                       && r.calls[k].rows[i].value == input.values[i].value
                       && r.calls[k].rows[i].xOrder == input.values[i].xOrder)
  {
    var r := CreateCard(session, input, dashboard, maximumXOrder, newCardId);
    var needMaximum := input.xOrder.None? && input.xOrderPreference != Some(First);
    var readMaximum := if needMaximum then [GetMaximumCardXOrderCall(dashboard.value.id)] else [];
    var writeValues :=
      if |input.values| > 0 then [CreateCardValuesCall(TagValues(input.values, newCardId))] else [];
    var position := if input.xOrder.Some? then input.xOrder.value
                    else if input.xOrderPreference == Some(First) then 0
                    else maximumXOrder + 1;
    var lookup := GetDashboardCall(true, session.value.user.username, input.dashboardSlug);
    var insert := CreateCardCall(input.cardTypeId, dashboard.value.id, position);
    assert r.calls == [lookup] + readMaximum + [insert] + writeValues;
    var read := GetMaximumCardXOrderCall(dashboard.value.id);
    if |input.values| > 0 {
      var write := CreateCardValuesCall(TagValues(input.values, newCardId));
      if needMaximum {
        assert r.calls == [lookup, read, insert, write];
      } else {
        assert r.calls == [lookup, insert, write];
      }
      assert r.calls[|r.calls| - 1] == write;
    } else if needMaximum {
      assert r.calls == [lookup, read, insert];
    } else {
      assert r.calls == [lookup, insert];
    }
  }

  /** Where each part sits in a trace of one call, an optional call, one call and an optional call. */
  lemma TraceShape<T>(first: T, middle: seq<T>, third: T, last: seq<T>)
    requires |middle| <= 1 && |last| <= 1
    ensures var t := [first] + middle + [third] + last;
            && |t| == 2 + |middle| + |last|
            && t[0] == first
            && (|middle| == 1 ==> t[1] == middle[0])
            && t[1 + |middle|] == third
            && (|last| == 1 ==> t[|t| - 1] == last[0])
            && (forall x :: x in t <==> x == first || x in middle || x == third || x in last)
  {
  }

  // --- createDashboard ---------------------------------------------------

  /** `s.length` in JavaScript: a character above U+FFFF takes two UTF-16 code units. */
  function Utf16Length(s: string): (n: nat)
    ensures |s| <= n <= 2 * |s|
  {
    if |s| == 0 then 0 else (if s[0] as int > 0xFFFF then 2 else 1) + Utf16Length(s[1..])
  }

  predicate InBasicPlane(s: string) {
    forall i :: 0 <= i < |s| ==> s[i] as int <= 0xFFFF
  }

  /** The JavaScript length is the character count exactly when no character lies above U+FFFF. */
  lemma {:induction false} Utf16LengthIsCount(s: string)
    ensures Utf16Length(s) == |s| <==> InBasicPlane(s)
  {
    if |s| > 0 {
      Utf16LengthIsCount(s[1..]);
      if InBasicPlane(s) {
        assert InBasicPlane(s[1..]) by {
          forall i | 0 <= i < |s[1..]|
            ensures s[1..][i] as int <= 0xFFFF
          {
            assert s[1..][i] == s[i + 1];
          }
        }
      } else if s[0] as int <= 0xFFFF {
        var i :| 0 <= i < |s| && s[i] as int > 0xFFFF;
        assert s[1..][i - 1] == s[i];
      }
    }
  }

  /** The title bounds the input schema enforces before the handler runs, counted in UTF-16 code units. */
  predicate ValidTitle(title: string) { 2 <= Utf16Length(title) <= 32 }

  /** A single character above U+FFFF, such as an emoji, already makes a title of the minimum length. */
  lemma AstralCharIsValidTitle(c: char)
    requires c as int > 0xFFFF
    ensures ValidTitle([c])
  {
    assert [c][1..] == [];
  }

  datatype CreatedDashboard = CreatedDashboard(dashboardId: string, slug: string, title: string)

  /**
   * `createDashboard`. `isAvailable` and `maximumXOrder` are the repository's
   * answers for the slugified title, `uuid` a fresh `randomUUID()`,
   * `newDashboardId` the id the insert returns.
   */
  function CreateDashboard(session: Option<Session>, title: string, icon: Option<string>, xOrder: Option<int>,
                           isAvailable: bool, maximumXOrder: int, uuid: string, newDashboardId: string)
    : (r: Reply<CreatedDashboard>)
    requires |uuid| >= 4
    ensures !ValidTitle(title) ==> r == Reply([], Err(BadRequest))
    ensures ValidTitle(title) && session.None? ==> r == Reply([], Err(Unauthorized))
    ensures r.result.Ok? <==> ValidTitle(title) && session.Some?
    ensures r.result.Ok? ==>
      var userId := session.value.user.id;
      var slug := r.result.value.slug;
      && r.result.value.dashboardId == newDashboardId && r.result.value.title == title
      && (isAvailable ==> slug == Slugify(title))
      && (!isAvailable ==> slug == Slugify(title) + "-" + uuid[..4])
      && r.calls == [ IsDashboardSlugAvailableCall(Slugify(title), userId),
                      GetMaximumDashboardXOrderCall(userId),
                      CreateDashboardCall(userId, slug, title, icon,
                                          if xOrder.Some? then xOrder.value else maximumXOrder + 1) ]
  {
    if !ValidTitle(title) then Reply([], Err(BadRequest))
    else if session.None? then Reply([], Err(Unauthorized))
    else
      var userId := session.value.user.id;
      var slug := Slugify(title);
      var finalSlug := ResolveSlug(slug, isAvailable, uuid);
      assert !isAvailable ==> finalSlug == slug + "-" + uuid[..4];
      var position := if xOrder.Some? then xOrder.value else maximumXOrder + 1;
      Reply([IsDashboardSlugAvailableCall(slug, userId), GetMaximumDashboardXOrderCall(userId),
             CreateDashboardCall(userId, finalSlug, title, icon, position)],
            Ok(CreatedDashboard(newDashboardId, finalSlug, title)))
  }

  // --- the other mutations -------------------------------------------------

  /** `deleteCards`: delete the session user's cards with the given ids. */
  function DeleteCards(session: Option<Session>, ids: seq<string>): (r: Reply<bool>)
    ensures r.result.Err? <==> session.None?
    ensures r.result.Err? ==> r == Reply([], Err(Unauthorized))
    ensures r.result.Ok? ==> r.result.value && |r.calls| == 1 && r.calls[0].DeleteCardsCall? && r.calls[0].ids == ids
  {
    if session.None? then Reply([], Err(Unauthorized))
    else Reply([DeleteCardsCall(session.value.user.id, ids)], Ok(true))
  }

  /** `reorderCards`: hand the new positions of the session user's cards to the repository. */
  function ReorderCards(session: Option<Session>, orders: seq<CardOrder>): (r: Reply<bool>)
    ensures r.result.Err? <==> session.None?
    ensures r.result.Err? ==> r == Reply([], Err(Unauthorized))
    ensures r.result.Ok? ==> r.result.value && |r.calls| == 1 && r.calls[0].ReorderCardsCall? && r.calls[0].orders == orders
  {
    if session.None? then Reply([], Err(Unauthorized))
    else Reply([ReorderCardsCall(session.value.user.id, orders)], Ok(true))
  }

  /**
   * `renameDashboard`; `repoAnswer` is what the repository's rename returns.
   * The input schema runs first, so an invalid title is refused even
   * without a session.
   */
  function RenameDashboard<T>(session: Option<Session>, title: string, dashboardSlug: string, repoAnswer: T)
    : (r: Reply<T>)
    ensures r.result.Err? <==> !ValidTitle(title) || session.None?
    ensures r.result.Err? ==> r.calls == [] && r.result.error == if ValidTitle(title) then Unauthorized else BadRequest
    ensures r.result.Ok? ==> && r.result.value == repoAnswer && |r.calls| == 1 && r.calls[0].RenameDashboardCall?
                             && r.calls[0].title == title && r.calls[0].slug == dashboardSlug
  {
    if !ValidTitle(title) then Reply([], Err(BadRequest))
    else if session.None? then Reply([], Err(Unauthorized))
    else Reply([RenameDashboardCall(title, dashboardSlug, session.value.user.id)], Ok(repoAnswer))
  }

  /**
   * A repository call made on behalf of `user`: every user id it passes is
   * the user's, a dashboard it looks up is one of the user's own, read as
   * owner, and a dashboard id it passes is `dashboardId`, the id of the
   * dashboard that lookup found. Reads of another user's data never qualify.
   */
  predicate CallScopedTo(c: RepoCall, user: User, dashboardId: Option<string>) {
    match c
    case GetDashboardCall(isOwner, username, _) => isOwner && username == user.username
    case GetDashboardsCall(_, _) => false
    case GetCardsCall(_, _, _) => false
    case GetMaximumCardXOrderCall(id) => dashboardId == Some(id)
    case CreateCardCall(_, id, _) => dashboardId == Some(id)
    case CreateCardValuesCall(_) => dashboardId.Some?
    case DeleteCardsCall(userId, _) => userId == user.id
    case ReorderCardsCall(userId, _) => userId == user.id
    case IsDashboardSlugAvailableCall(_, userId) => userId == user.id
    case GetMaximumDashboardXOrderCall(userId) => userId == user.id
    case CreateDashboardCall(userId, _, _, _, _) => userId == user.id
    case RenameDashboardCall(_, _, userId) => userId == user.id
  }

  predicate ScopedTo(calls: seq<RepoCall>, user: User, dashboardId: Option<string>) {
    forall k :: 0 <= k < |calls| ==> CallScopedTo(calls[k], user, dashboardId)
  }

  function DashboardId(dashboard: Option<Dashboard>): Option<string> {
    if dashboard.Some? then Some(dashboard.value.id) else None
  }

  /** A signed-in `createCard` calls the repository only for the user's own dashboard. */
  lemma CreateCardScoped(s: Session, input: CreateCardInput, dashboard: Option<Dashboard>, maximumXOrder: int,
                         newCardId: string)
    ensures var r := CreateCard(Some(s), input, dashboard, maximumXOrder, newCardId);
            |r.calls| > 0 && ScopedTo(r.calls, s.user, DashboardId(dashboard))
  {
    var r := CreateCard(Some(s), input, dashboard, maximumXOrder, newCardId);
    if dashboard.Some? {
      var needMaximum := input.xOrder.None? && input.xOrderPreference != Some(First);
      var lookup := GetDashboardCall(true, s.user.username, input.dashboardSlug);
      var readMaximum := if needMaximum then [GetMaximumCardXOrderCall(dashboard.value.id)] else [];
      var position := SelectCardXOrder(input.xOrder, input.xOrderPreference, maximumXOrder).value;
      var insert := CreateCardCall(input.cardTypeId, dashboard.value.id, position);
      var writeValues :=
        if |input.values| > 0 then [CreateCardValuesCall(TagValues(input.values, newCardId))] else [];
      assert r.calls == [lookup] + readMaximum + [insert] + writeValues;
      assert ScopedTo([lookup] + readMaximum + [insert] + writeValues, s.user, DashboardId(dashboard)) by {
        ScopedAppend([lookup] + readMaximum, [insert], s.user, DashboardId(dashboard));
        ScopedAppend([lookup] + readMaximum + [insert], writeValues, s.user, DashboardId(dashboard));
        ScopedAppend([lookup], readMaximum, s.user, DashboardId(dashboard));
      }
    }
  }

  /** Calls scoped to a user stay scoped when put together. */
  lemma ScopedAppend(a: seq<RepoCall>, b: seq<RepoCall>, user: User, dashboardId: Option<string>)
    requires ScopedTo(a, user, dashboardId) && ScopedTo(b, user, dashboardId)
    ensures ScopedTo(a + b, user, dashboardId)
  {
    forall k | 0 <= k < |a + b|
      ensures CallScopedTo((a + b)[k], user, dashboardId)
    {
      if k >= |a| {
        assert (a + b)[k] == b[k - |a|];
      }
    }
  }

  /** A signed-in `createDashboard` with a valid title calls the repository for the user alone. */
  lemma CreateDashboardScoped(s: Session, title: string, icon: Option<string>, xOrder: Option<int>,
                              isAvailable: bool, maximumXOrder: int, uuid: string, newDashboardId: string)
    requires |uuid| >= 4
    ensures var r := CreateDashboard(Some(s), title, icon, xOrder, isAvailable, maximumXOrder, uuid, newDashboardId);
            (|r.calls| > 0 <==> ValidTitle(title)) && ScopedTo(r.calls, s.user, None)
  {
    var r := CreateDashboard(Some(s), title, icon, xOrder, isAvailable, maximumXOrder, uuid, newDashboardId);
    if ValidTitle(title) {
      DashboardCallsScoped(s.user, Slugify(title), r.result.value.slug, title, icon,
                           if xOrder.Some? then xOrder.value else maximumXOrder + 1);
    }
  }

  lemma DashboardCallsScoped(user: User, slug: string, finalSlug: string, title: string, icon: Option<string>, position: int)
    ensures ScopedTo([IsDashboardSlugAvailableCall(slug, user.id), GetMaximumDashboardXOrderCall(user.id),
                      CreateDashboardCall(user.id, finalSlug, title, icon, position)], user, None)
  {
  }

  /** The single-call mutations of a signed-in user call the repository for the user alone. */
  lemma SingleCallMutationsScoped(s: Session, title: string, ids: seq<string>, orders: seq<CardOrder>, dashboardSlug: string)
    ensures var r := DeleteCards(Some(s), ids);
            |r.calls| > 0 && ScopedTo(r.calls, s.user, None)
    ensures var r := ReorderCards(Some(s), orders);
            |r.calls| > 0 && ScopedTo(r.calls, s.user, None)
    ensures var r := RenameDashboard(Some(s), title, dashboardSlug, true);
            (|r.calls| > 0 <==> ValidTitle(title)) && ScopedTo(r.calls, s.user, None)
  {
  }

  /**
   * With a session every mutation that passes validation reaches the
   * repository, and every call it makes is scoped to the session user: its
   * user ids, its own dashboards read as owner, and the dashboard found that
   * way.
   */
  lemma SignedInMutationsAreScoped(s: Session, input: CreateCardInput, dashboard: Option<Dashboard>, maximumXOrder: int,
                                   newCardId: string, title: string, icon: Option<string>, xOrder: Option<int>,
                                   isAvailable: bool, uuid: string, newDashboardId: string, ids: seq<string>,
                                   orders: seq<CardOrder>, dashboardSlug: string)
    requires |uuid| >= 4
    ensures var r := CreateCard(Some(s), input, dashboard, maximumXOrder, newCardId);
            |r.calls| > 0 && ScopedTo(r.calls, s.user, DashboardId(dashboard))
    ensures var r := CreateDashboard(Some(s), title, icon, xOrder, isAvailable, maximumXOrder, uuid, newDashboardId);
            (|r.calls| > 0 <==> ValidTitle(title)) && ScopedTo(r.calls, s.user, None)
    ensures var r := DeleteCards(Some(s), ids);
            |r.calls| > 0 && ScopedTo(r.calls, s.user, None)
    ensures var r := ReorderCards(Some(s), orders);
            |r.calls| > 0 && ScopedTo(r.calls, s.user, None)
    ensures var r := RenameDashboard(Some(s), title, dashboardSlug, true);
            (|r.calls| > 0 <==> ValidTitle(title)) && ScopedTo(r.calls, s.user, None)
  {
    CreateCardScoped(s, input, dashboard, maximumXOrder, newCardId);
    CreateDashboardScoped(s, title, icon, xOrder, isAvailable, maximumXOrder, uuid, newDashboardId);
    SingleCallMutationsScoped(s, title, ids, orders, dashboardSlug);
  }

  /** Without a session no mutation reaches the repository, and every one that passes validation is refused. */
  lemma AnonymousMutationsTouchNothing(input: CreateCardInput, dashboard: Option<Dashboard>, maximumXOrder: int,
                                       newCardId: string, title: string, icon: Option<string>, xOrder: Option<int>,
                                       isAvailable: bool, uuid: string, ids: seq<string>, orders: seq<CardOrder>,
                                       dashboardSlug: string)
    requires |uuid| >= 4
    ensures CreateCard(None, input, dashboard, maximumXOrder, newCardId).calls == []
    ensures CreateDashboard(None, title, icon, xOrder, isAvailable, maximumXOrder, uuid, newCardId).calls == []
    ensures DeleteCards(None, ids).calls == [] && ReorderCards(None, orders).calls == []
    ensures RenameDashboard(None, title, dashboardSlug, true).calls == []
    ensures CreateCard(None, input, dashboard, maximumXOrder, newCardId).result == Err(Unauthorized)
    ensures ValidTitle(title) ==>
      CreateDashboard(None, title, icon, xOrder, isAvailable, maximumXOrder, uuid, newCardId).result == Err(Unauthorized)
    ensures DeleteCards(None, ids).result == Err(Unauthorized) && ReorderCards(None, orders).result == Err(Unauthorized)
    ensures ValidTitle(title) ==> RenameDashboard(None, title, dashboardSlug, true).result == Err(Unauthorized)
  {
  }
}
