/** Which segments expansion leaves alone, and when an expanded segment expands to something else again. */
module PathStability {
  import opened Wrappers
  import opened PathEnv
  import PathNormalize

  predicate Reference(p: Piece) {
    p.Braced? || p.Bare?
  }

  predicate SetReference(env: Env, p: Piece) {
    Reference(p) && p.name in env
  }

  ghost predicate NoReference(pieces: seq<Piece>) {
    forall i :: 0 <= i < |pieces| ==> !Reference(pieces[i])
  }

  ghost predicate NoSetReference(env: Env, pieces: seq<Piece>) {
    forall i :: 0 <= i < |pieces| ==> !SetReference(env, pieces[i])
  }

  /** What is left of a template whose references are all unset. */
  function Kept(pieces: seq<Piece>): (kept: seq<Piece>)
    ensures NoReference(kept) && |kept| <= |pieces|
  {
    if pieces == [] then []
    else (if Reference(pieces[0]) then [] else [pieces[0]]) + Kept(pieces[1..])
  }

  lemma {:induction false} KeptAll(pieces: seq<Piece>)
    ensures NoReference(pieces) <==> Kept(pieces) == pieces
    ensures !NoReference(pieces) ==> |Render(Kept(pieces))| < |Render(pieces)|
    ensures |Render(Kept(pieces))| <= |Render(pieces)|
  {
    hide RenderPiece;
    if pieces != [] {
      var p, rest := pieces[0], pieces[1..];
      KeptAll(rest);
      SomeText(p);
      if Reference(p) {
        assert Kept(pieces) == Kept(rest);
      } else {
        assert Kept(pieces)[0] == p && Kept(pieces)[1..] == Kept(rest);
        assert NoReference(pieces) <==> NoReference(rest);
      }
    }
  }

  lemma SomeText(p: Piece)
    ensures RenderPiece(p) != ""
  {
  }

  /** A scan replaces something exactly when the template has a set reference, and otherwise only erases. */
  lemma {:induction false} MeaningOfUnset(env: Env, pieces: seq<Piece>)
    ensures Meaning(env, pieces).changed <==> !NoSetReference(env, pieces)
    ensures NoSetReference(env, pieces) ==> Meaning(env, pieces).text == Render(Kept(pieces))
  {
    if pieces != [] {
      MeaningOfUnset(env, pieces[1..]);
      assert NoSetReference(env, pieces) <==>
               !SetReference(env, pieces[0]) && NoSetReference(env, pieces[1..]);
      if Reference(pieces[0]) {
        assert Kept(pieces) == Kept(pieces[1..]);
      } else {
        assert Kept(pieces)[0] == pieces[0] && Kept(pieces)[1..] == Kept(pieces[1..]);
      }
    }
  }

  /** How a segment reads once `~` is replaced. */
  function Reading(home: PathNormalize.Home, segment: string): (pieces: seq<Piece>)
    ensures Template(pieces) && Render(pieces) == PathNormalize.ExpandTilde(segment, home)
  {
    EveryTextIsATemplate(PathNormalize.ExpandTilde(segment, home), 0);
    Parse(PathNormalize.ExpandTilde(segment, home), 0)
  }

  /** One round of expansion. */
  lemma RoundIsMeaning(env: Env, home: PathNormalize.Home, segment: string)
    ensures Substitute(env, PathNormalize.ExpandTilde(segment, home), 0) == Meaning(env, Reading(home, segment))
  {
    hide PathNormalize.ExpandTilde, Substitute, Meaning, Parse, Template, Render;
    var pieces := Reading(home, segment);
    SubstituteIsMeaning(env, "", pieces);
    assert "" + Render(pieces) == Render(pieces);
  }

  /** The text whose round ended the expansion because nothing was replaced; none when the depth limit did. */
  function LastText(env: Env, home: PathNormalize.Home, segment: string, depth: nat): Option<string>
    decreases MAX_DEPTH + 1 - depth
  {
    if segment == "" then Some(segment)
    else if depth > MAX_DEPTH then None
    else
      var scanned := Substitute(env, PathNormalize.ExpandTilde(segment, home), 0);
      if scanned.changed then LastText(env, home, scanned.text, depth + 1) else Some(segment)
  }

  /** An expansion that the limit did not cut is its last text with the unset references erased. */
  lemma {:induction false} ExpandErases(env: Env, home: PathNormalize.Home, segment: string, depth: nat)
    requires LastText(env, home, segment, depth).Some?
    ensures var last := LastText(env, home, segment, depth).value;
            && NoSetReference(env, Reading(home, last))
            && Expand(env, home, segment, depth) == Render(Kept(Reading(home, last)))
    decreases MAX_DEPTH + 1 - depth
  {
    hide PathNormalize.ExpandTilde, Substitute, Meaning, Reading, Render, Kept, NoSetReference;
    if segment == "" {
      NothingToRead(env, home);
    } else {
      var scanned := Substitute(env, PathNormalize.ExpandTilde(segment, home), 0);
      RoundIsMeaning(env, home, segment);
      MeaningOfUnset(env, Reading(home, segment));
      if scanned.changed {
        ExpandErases(env, home, scanned.text, depth + 1);
      }
    }
  }

  lemma NothingToRead(env: Env, home: PathNormalize.Home)
    ensures Reading(home, "") == [] && NoSetReference(env, []) && Render(Kept([])) == ""
  {
  }

  /** A home directory whose first character expansion does not look at. */
  predicate OrdinaryHome(home: PathNormalize.Home) {
    home.None? || home.value == "" || (home.value[0] != '~' && home.value[0] != '$')
  }

  /** Nothing in the segment is up for expansion. */
  ghost predicate Inert(home: PathNormalize.Home, segment: string) {
    PathNormalize.ExpandTilde(segment, home) == segment && NoReference(Reading(home, segment))
  }

  /** An inert segment expands to itself in every environment; one without a set reference expands to itself only if
      it is inert. */
  lemma FixedIffInert(env: Env, home: PathNormalize.Home, segment: string)
    requires OrdinaryHome(home) && NoSetReference(env, Reading(home, segment))
    ensures Expand(env, home, segment, 0) == segment <==> Inert(home, segment)
  {
    hide PathNormalize.ExpandTilde, Substitute, Meaning, Reading, Render, Kept, NoSetReference;
    var pieces := Reading(home, segment);
    ExpandsOnce(env, home, segment);
    KeptAll(pieces);
    if PathNormalize.ExpandTilde(segment, home) != segment {
      TildeMoves(home, segment);
    }
  }

  lemma ExpandsOnce(env: Env, home: PathNormalize.Home, segment: string)
    requires NoSetReference(env, Reading(home, segment))
    ensures LastText(env, home, segment, 0) == Some(segment)
    ensures Expand(env, home, segment, 0) == Render(Kept(Reading(home, segment)))
  {
    hide PathNormalize.ExpandTilde, Substitute, Meaning, Reading, Render, Kept, NoSetReference;
    RoundIsMeaning(env, home, segment);
    MeaningOfUnset(env, Reading(home, segment));
    ExpandErases(env, home, segment, 0);
  }

  /** Erasing references cannot bring back a `~` that was replaced. */
  lemma TildeMoves(home: PathNormalize.Home, segment: string)
    requires OrdinaryHome(home) && PathNormalize.ExpandTilde(segment, home) != segment
    ensures Render(Kept(Reading(home, segment))) != segment
  {
    hide NoReference;
    var pieces, text := Reading(home, segment), PathNormalize.ExpandTilde(segment, home);
    if home.value == "" {
      KeptAll(pieces);
    } else {
      assert text[0] == home.value[0];
      PlainFront(pieces);
    }
  }

  lemma PlainFront(pieces: seq<Piece>)
    requires Template(pieces) && Render(pieces) != "" && Render(pieces)[0] != '$'
    ensures Render(Kept(pieces)) != "" && Render(Kept(pieces))[0] == Render(pieces)[0]
  {
    hide ReadsAs;
    assert pieces[0].Plain?;
    assert Kept(pieces)[0] == pieces[0];
  }

  lemma InertFixed(env: Env, home: PathNormalize.Home, segment: string)
    requires Inert(home, segment)
    ensures Expand(env, home, segment, 0) == segment
  {
    hide PathNormalize.ExpandTilde, Reading, Render, Kept;
    KeptAll(Reading(home, segment));
    ExpandsOnce(env, home, segment);
  }

  lemma {:induction false} PlainTail(env: Env, s: string, i: nat)
    requires i <= |s| && '$' !in s[i..]
    ensures Substitute(env, s, i) == Scanned(s[i..], false)
    decreases |s| - i
  {
    if i < |s| {
      assert s[i..] == [s[i]] + s[i + 1..];
      PlainTail(env, s, i + 1);
    }
  }

  /** A segment without `$` that does not start with `~` expands to itself, in every environment. */
  lemma PlainSegmentFixed(env: Env, home: PathNormalize.Home, segment: string, depth: nat)
    requires '$' !in segment && (segment == "" || segment[0] != '~')
    ensures Expand(env, home, segment, depth) == segment
  {
    hide Substitute;
    assert segment[0..] == segment;
    PlainTail(env, segment, 0);
  }

  // ---- Expanding again -------------------------------------------------------------------------------

  /** Some dollar that started no reference starts one when the pieces are written together. */
  ghost predicate UncoversDollar(kept: seq<Piece>) {
    exists i :: 0 <= i < |kept| && kept[i].Dollar? && !ReadsAs(Dollar, Render(kept[i + 1..]))
  }

  ghost predicate PlainDiffers(pieces: seq<Piece>) {
    forall i :: 0 <= i < |pieces| ==> (pieces[i].Plain? ==> pieces[i].c != '$')
  }

  lemma {:induction false} TemplateIffCovered(kept: seq<Piece>)
    requires NoReference(kept) && PlainDiffers(kept)
    ensures Template(kept) <==> !UncoversDollar(kept)
  {
    hide Render;
    if kept != [] {
      var rest := kept[1..];
      TemplateIffCovered(rest);
      assert kept[0].Plain? || kept[0].Dollar?;
      if UncoversDollar(rest) {
        var i :| 0 <= i < |rest| && rest[i].Dollar? && !ReadsAs(Dollar, Render(rest[i + 1..]));
        assert kept[i + 1] == rest[i] && kept[i + 2..] == rest[i + 1..];
      }
      if UncoversDollar(kept) && !UncoversDollar(rest) {
        var i :| 0 <= i < |kept| && kept[i].Dollar? && !ReadsAs(Dollar, Render(kept[i + 1..]));
        if i > 0 {
          assert rest[i - 1] == kept[i] && rest[i..] == kept[i + 1..];
        }
      }
    }
  }

  /** A text has one reading: no two templates without references render alike. */
  lemma {:induction false} OneReading(a: seq<Piece>, b: seq<Piece>)
    requires NoReference(a) && PlainDiffers(a) && NoReference(b) && PlainDiffers(b) && Render(a) == Render(b)
    ensures a == b
  {
    if a != [] && b != [] {
      assert (a[0].Plain? || a[0].Dollar?) && (b[0].Plain? || b[0].Dollar?);
      assert Render(a)[0] == Render(b)[0] && Render(a)[1..] == Render(b)[1..];
      assert RenderPiece(a[0])[0] == RenderPiece(b[0])[0];
      OneReading(a[1..], b[1..]);
      assert a == [a[0]] + a[1..] && b == [b[0]] + b[1..];
    }
  }

  lemma {:induction false} TemplatePlains(pieces: seq<Piece>)
    requires Template(pieces)
    ensures PlainDiffers(pieces) && PlainDiffers(Kept(pieces))
  {
    hide Render;
    if pieces != [] {
      TemplatePlains(pieces[1..]);
      assert forall i :: 0 < i < |pieces| ==> pieces[i] == pieces[1..][i - 1];
      var kept := Kept(pieces);
      if !Reference(pieces[0]) {
        assert forall i :: 0 < i < |kept| ==> kept[i] == Kept(pieces[1..])[i - 1];
      } else {
        assert kept == Kept(pieces[1..]);
      }
    }
  }

  /** Pieces that are no references are read back as such exactly when they uncover no dollar. */
  lemma ReadsWithoutReferenceIff(kept: seq<Piece>)
    requires NoReference(kept) && PlainDiffers(kept)
    ensures NoReference(Parse(Render(kept), 0)) <==> !UncoversDollar(kept)
  {
    hide UncoversDollar, Render, Parse, Template, Substitute, NoReference, PlainDiffers;
    var text := Render(kept);
    EveryTextIsATemplate(text, 0);
    assert text[0..] == text;
    var pieces := Parse(text, 0);
    TemplatePlains(pieces);
    TemplateIffCovered(kept);
    if NoReference(pieces) {
      OneReading(kept, pieces);
    }
    if Template(kept) {
      KeptAll(kept);
      KeptAll(pieces);
      SameScan(kept, pieces);
    }
  }

  lemma SameScan(a: seq<Piece>, b: seq<Piece>)
    requires Template(a) && Template(b) && Render(a) == Render(b)
    ensures Render(Kept(a)) == Render(Kept(b))
  {
    hide Render, Template, Substitute;
    SubstituteIsMeaning(map[], "", a);
    SubstituteIsMeaning(map[], "", b);
    MeaningOfUnset(map[], a);
    MeaningOfUnset(map[], b);
  }

  /** What a finished expansion left exposed: a dollar that now starts a reference, or a `~` at the front. */
  ghost predicate Exposes(home: PathNormalize.Home, last: string) {
    var kept := Kept(Reading(home, last));
    UncoversDollar(kept) || PathNormalize.ExpandTilde(Render(kept), home) != Render(kept)
  }

  lemma InertIffNothingExposed(env: Env, home: PathNormalize.Home, last: string)
    ensures Inert(home, Render(Kept(Reading(home, last)))) <==> !Exposes(home, last)
  {
    hide UncoversDollar, Render, Kept, PathNormalize.ExpandTilde, Parse, Template, NoReference;
    var pieces := Reading(home, last);
    TemplatePlains(pieces);
    ReadsWithoutReferenceIff(Kept(pieces));
  }

  /** Only the erasure of an unset reference exposes anything. */
  lemma ExposedByErasure(home: PathNormalize.Home, last: string)
    requires OrdinaryHome(home) && NoReference(Reading(home, last))
    ensures !Exposes(home, last)
  {
    hide UncoversDollar, Render, Parse, Template, NoReference;
    var pieces := Reading(home, last);
    KeptAll(pieces);
    TemplatePlains(pieces);
    TemplateIffCovered(pieces);
  }

  /** A segment that expansion already expanded moves again only when the depth limit cut the first expansion or the
      erasure of an unset reference exposed a dollar or a `~`. */
  lemma MovesAgainOnlyIf(env: Env, home: PathNormalize.Home, segment: string)
    requires OrdinaryHome(home)
    ensures var expanded := Expand(env, home, segment, 0);
            Expand(env, home, expanded, 0) != expanded ==>
              var last := LastText(env, home, segment, 0);
              last.None? || (!NoReference(Reading(home, last.value)) && Exposes(home, last.value))
  {
    hide Expand, Exposes, Inert, Reading, LastText, NoReference;
    var last := LastText(env, home, segment, 0);
    if last.Some? {
      ExpandErases(env, home, segment, 0);
      InertIffNothingExposed(env, home, last.value);
      var expanded := Expand(env, home, segment, 0);
      if Inert(home, expanded) {
        InertFixed(env, home, expanded);
      } else if NoReference(Reading(home, last.value)) {
        ExposedByErasure(home, last.value);
      }
    }
  }

  /** When the limit did not cut the expansion and what it left has no set reference, it moves again exactly when
      something was exposed. */
  lemma MovesAgainIff(env: Env, home: PathNormalize.Home, segment: string)
    requires OrdinaryHome(home) && LastText(env, home, segment, 0).Some?
    requires NoSetReference(env, Reading(home, Expand(env, home, segment, 0)))
    ensures var expanded := Expand(env, home, segment, 0);
            Expand(env, home, expanded, 0) != expanded <==> Exposes(home, LastText(env, home, segment, 0).value)
  {
    hide Expand, Exposes, Inert, Reading, LastText, NoSetReference;
    ExpandErases(env, home, segment, 0);
    InertIffNothingExposed(env, home, LastText(env, home, segment, 0).value);
    FixedIffInert(env, home, Expand(env, home, segment, 0));
  }
}
