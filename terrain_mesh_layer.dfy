/**
 * The URL template logic of the terrain mesh layer: the `invertY` option,
 * the `[...]` rotation group found when the layer opens, and the URI built
 * for each tile key by placeholder substitution, y inversion and rotation
 * through the group's characters.
 */
module TerrainMesh {
  import opened Wrappers
  import opened Strings

  const UINT32_LIMIT: int := 0x1_0000_0000
  const SIZE_T_LIMIT: int := 0x1_0000_0000_0000_0000

  /** A C++ `unsigned`. */
  type uint32 = n: int | 0 <= n < UINT32_LIMIT

  /** The eight placeholders, in the order `createURI` replaces them. */
  const X_TOKEN: string := "${x}"
  const Y_TOKEN: string := "${y}"
  const INV_Y_TOKEN: string := "${-y}"
  const Z_TOKEN: string := "${z}"
  const LEGACY_X_TOKEN: string := "{x}"
  const LEGACY_Y_TOKEN: string := "{y}"
  const LEGACY_INV_Y_TOKEN: string := "{-y}"
  const LEGACY_Z_TOKEN: string := "{z}"
  const PLACEHOLDERS: seq<string> := [X_TOKEN, Y_TOKEN, INV_Y_TOKEN, Z_TOKEN,
                                      LEGACY_X_TOKEN, LEGACY_Y_TOKEN, LEGACY_INV_Y_TOKEN, LEGACY_Z_TOKEN]

  /** The `invert_y` setting of a layer configuration, `None` when the key is absent. */
  function InvertYOption(setting: Option<bool>): (invertY: bool)
    ensures setting.None? ==> !invertY
    ensures setting.Some? ==> invertY == setting.value
  {
    setting.GetOr(false)
  }

  /** `rows - y - 1` in unsigned arithmetic. */
  function InvertedY(rows: uint32, y: uint32): (r: uint32)
    ensures y < rows ==> r == rows - y - 1 && r < rows
    ensures y >= rows ==> r == rows - y - 1 + UINT32_LIMIT
  {
    (rows - y - 1) % UINT32_LIMIT
  }

  /** Inverting twice gives back the row one started from. */
  lemma InvertedYInvolution(rows: uint32, y: uint32)
    requires y < rows
    ensures InvertedY(rows, InvertedY(rows, y)) == y
  {
  }

  /** The row that the `{y}` placeholders receive. */
  function RowFor(invertY: bool, rows: uint32, y: uint32): (row: uint32)
    ensures invertY ==> row == InvertedY(rows, y)
    ensures !invertY ==> row == y
  {
    if invertY then InvertedY(rows, y) else y
  }

  /** Every placeholder is non-empty and contains no decimal digit. */
  lemma PlaceholdersHaveNoDigits()
    ensures forall j :: 0 <= j < |PLACEHOLDERS| ==> PLACEHOLDERS[j] != [] && NoDigits(PLACEHOLDERS[j])
  {
    forall j | 0 <= j < |PLACEHOLDERS|
      ensures PLACEHOLDERS[j] != [] && NoDigits(PLACEHOLDERS[j])
    {
      var t := PLACEHOLDERS[j];
      assert forall k :: 0 <= k < |t| ==> t[k] in "${}-xyz";
    }
  }

  /**
   * Replacing placeholder `k` by the digits of `n` removes it and brings back
   * none of the placeholders already replaced.
   */
  lemma SubstitutionStep(s: string, k: nat, n: nat)
    requires k < |PLACEHOLDERS|
    requires forall j :: 0 <= j < k ==> !Contains(s, PLACEHOLDERS[j])
    ensures forall j :: 0 <= j <= k ==> !Contains(ReplaceAll(s, PLACEHOLDERS[k], DecimalString(n)), PLACEHOLDERS[j])
  {
    var r := DecimalString(n);
    PlaceholdersHaveNoDigits();
    DigitsAvoid(PLACEHOLDERS[k], r);
    ReplaceAllRemovesPattern(s, PLACEHOLDERS[k], r);
    forall j | 0 <= j < k
      ensures !Contains(ReplaceAll(s, PLACEHOLDERS[k], r), PLACEHOLDERS[j])
    {
      DigitsAvoid(PLACEHOLDERS[j], r);
      ReplaceAllKeepsAbsent(s, PLACEHOLDERS[k], r, PLACEHOLDERS[j]);
    }
  }

  /**
   * The eight placeholder substitutions of `createURI`, OpenLayers style
   * first. No placeholder survives them: decimal digits cannot spell one.
   */
  function Substitute(template: string, x: uint32, y: uint32, invertedY: uint32, z: uint32): (location: string)
    ensures forall j :: 0 <= j < |PLACEHOLDERS| ==> !Contains(location, PLACEHOLDERS[j])
  {
    var s1 := ReplaceAll(template, X_TOKEN, DecimalString(x));
    var s2 := ReplaceAll(s1, Y_TOKEN, DecimalString(y));
    var s3 := ReplaceAll(s2, INV_Y_TOKEN, DecimalString(invertedY));
    var s4 := ReplaceAll(s3, Z_TOKEN, DecimalString(z));
    var s5 := ReplaceAll(s4, LEGACY_X_TOKEN, DecimalString(x));
    var s6 := ReplaceAll(s5, LEGACY_Y_TOKEN, DecimalString(y));
    var s7 := ReplaceAll(s6, LEGACY_INV_Y_TOKEN, DecimalString(invertedY));
    SubstitutionStep(template, 0, x);
    SubstitutionStep(s1, 1, y);
    SubstitutionStep(s2, 2, invertedY);
    SubstitutionStep(s3, 3, z);
    SubstitutionStep(s4, 4, x);
    SubstitutionStep(s5, 5, y);
    SubstitutionStep(s6, 6, invertedY);
    SubstitutionStep(s7, 7, z);
    ReplaceAll(s7, LEGACY_Z_TOKEN, DecimalString(z))
  }

  /** A string shorter than the pattern, or as long but different, does not contain it. */
  lemma NotContainedByLength(s: string, p: string)
    requires |s| < |p| || (|s| == |p| && s != p)
    ensures !Contains(s, p)
  {
    assert s[0..|s|] == s;
    forall i: nat | i <= |s|
      ensures !OccursAt(s, p, i)
    {
    }
  }

  /** Digits are left alone by the replacement of any placeholder. */
  lemma DigitsUntouched(d: string, k: nat, r: string)
    requires AllDigits(d) && k < |PLACEHOLDERS|
    ensures ReplaceAll(d, PLACEHOLDERS[k], r) == d
  {
    PlaceholdersHaveNoDigits();
    var p := PLACEHOLDERS[k];
    forall i: nat | i + |p| <= |d|
      ensures !OccursAt(d, p, i)
    {
      assert d[i..i + |p|][0] == d[i];
      assert IsDigit(d[i]) && !IsDigit(p[0]);
    }
    ReplaceAllWithoutMatch(d, p, r);
  }

  /** A template made of the legacy `{y}` placeholder alone becomes the row's digits. */
  lemma LegacyYReceivesRow(x: uint32, y: uint32, invertedY: uint32, z: uint32)
    ensures Substitute(LEGACY_Y_TOKEN, x, y, invertedY, z) == DecimalString(y)
  {
    var t := LEGACY_Y_TOKEN;
    NotContainedByLength(t, X_TOKEN);
    NotContainedByLength(t, Y_TOKEN);
    NotContainedByLength(t, INV_Y_TOKEN);
    NotContainedByLength(t, Z_TOKEN);
    NotContainedByLength(t, LEGACY_X_TOKEN);
    ReplaceAllWithoutMatch(t, X_TOKEN, DecimalString(x));
    ReplaceAllWithoutMatch(t, Y_TOKEN, DecimalString(y));
    ReplaceAllWithoutMatch(t, INV_Y_TOKEN, DecimalString(invertedY));
    ReplaceAllWithoutMatch(t, Z_TOKEN, DecimalString(z));
    ReplaceAllWithoutMatch(t, LEGACY_X_TOKEN, DecimalString(x));
    var d := DecimalString(y);
    assert t[..|LEGACY_Y_TOKEN|] == LEGACY_Y_TOKEN && t[|LEGACY_Y_TOKEN|..] == [];
    assert ReplaceAll(t, LEGACY_Y_TOKEN, d) == d + ReplaceAll([], LEGACY_Y_TOKEN, d);
    assert ReplaceAll(t, LEGACY_Y_TOKEN, d) == d;
    DigitsUntouched(d, 6, DecimalString(invertedY));
    DigitsUntouched(d, 7, DecimalString(z));
    assert PLACEHOLDERS[6] == LEGACY_INV_Y_TOKEN && PLACEHOLDERS[7] == LEGACY_Z_TOKEN;
  }

  /** A placeholder's position in PLACEHOLDERS. */
  type Slot = j: nat | j < 8

  /** The value `createURI` puts in place of placeholder `j`. */
  function FieldValue(j: Slot, x: uint32, y: uint32, invertedY: uint32, z: uint32): (v: uint32)
    ensures PLACEHOLDERS[j] in {X_TOKEN, LEGACY_X_TOKEN} ==> v == x
    ensures PLACEHOLDERS[j] in {Y_TOKEN, LEGACY_Y_TOKEN} ==> v == y
    ensures PLACEHOLDERS[j] in {INV_Y_TOKEN, LEGACY_INV_Y_TOKEN} ==> v == invertedY
    ensures PLACEHOLDERS[j] in {Z_TOKEN, LEGACY_Z_TOKEN} ==> v == z
  {
    PlaceholderShape(j);
    if j == 0 || j == 4 then x
    else if j == 1 || j == 5 then y
    else if j == 2 || j == 6 then invertedY
    else z
  }

  /**
   * The shape of each placeholder: it opens with '$' (the OpenLayers style)
   * or '{' (the legacy style), holds one '}' as its last character, and is
   * told apart from the others by its opener, its length and the letter
   * before the '}'.
   */
  lemma PlaceholderShape(j: Slot)
    ensures PLACEHOLDERS[j][0] == (if j < 4 then '$' else '{')
    ensures |PLACEHOLDERS[j]| == (if j == 2 then 5 else if j < 4 || j == 6 then 4 else 3)
    ensures PLACEHOLDERS[j][|PLACEHOLDERS[j]| - 1] == '}'
    ensures PLACEHOLDERS[j][|PLACEHOLDERS[j]| - 2] ==
              (if j == 0 || j == 4 then 'x' else if j == 3 || j == 7 then 'z' else 'y')
    ensures forall i :: 0 <= i < |PLACEHOLDERS[j]| - 1 ==> PLACEHOLDERS[j][i] != '}'
    ensures forall i :: 0 < i < |PLACEHOLDERS[j]| ==> PLACEHOLDERS[j][i] != '$'
    ensures j >= 4 ==> forall i :: 0 < i < |PLACEHOLDERS[j]| ==> PLACEHOLDERS[j][i] != '{'
  {
  }

  /**
   * No placeholder holds one replaced before it, so an earlier pass never
   * rewrites inside a later placeholder; this is why the `${...}` forms go
   * before the legacy `{...}` ones they contain.
   */
  lemma LaterPlaceholdersAbsent(j: Slot, k: Slot)
    requires k < j
    ensures !Contains(PLACEHOLDERS[j], PLACEHOLDERS[k])
  {
    var t, p := PLACEHOLDERS[j], PLACEHOLDERS[k];
    PlaceholderShape(j);
    PlaceholderShape(k);
    forall i: nat | i <= |t|
      ensures !OccursAt(t, p, i)
    {
    }
  }

  /**
   * A template seen as a sequence of pieces: literal text, and the
   * placeholders in it. After `done` substitution passes, the placeholders
   * with a position below `done` have become decimal numbers.
   */
  datatype Piece = Text(text: string) | Field(slot: Slot)

  /** Text that cannot open or close a placeholder. */
  predicate Literal(t: string)
  {
    forall i :: 0 <= i < |t| ==> t[i] != '$' && t[i] != '{' && t[i] != '}'
  }

  predicate WellFormed(pieces: seq<Piece>)
  {
    forall i :: 0 <= i < |pieces| && pieces[i].Text? ==> Literal(pieces[i].text)
  }

  function PieceText(piece: Piece, done: nat, x: uint32, y: uint32, invertedY: uint32, z: uint32): (t: string)
    ensures piece.Text? ==> t == piece.text
    ensures piece.Field? && piece.slot < done ==> t == DecimalString(FieldValue(piece.slot, x, y, invertedY, z))
    ensures piece.Field? && piece.slot >= done ==> t == PLACEHOLDERS[piece.slot]
  {
    match piece
    case Text(text) => text
    case Field(j) => if j < done then DecimalString(FieldValue(j, x, y, invertedY, z)) else PLACEHOLDERS[j]
  }

  /** The pieces written out after `done` passes; `Render(pieces, 0, ...)` is the template itself. */
  function Render(pieces: seq<Piece>, done: nat, x: uint32, y: uint32, invertedY: uint32, z: uint32): string
    decreases |pieces|
  {
    if pieces == [] then []
    else PieceText(pieces[0], done, x, y, invertedY, z) + Render(pieces[1..], done, x, y, invertedY, z)
  }

  /** Pass `k` turns one piece into its text after the pass, and starts no occurrence past it. */
  lemma PiecePass(piece: Piece, rest: string, k: Slot, x: uint32, y: uint32, invertedY: uint32, z: uint32)
    requires piece.Text? ==> Literal(piece.text)
    ensures var t, p := PieceText(piece, k, x, y, invertedY, z), PLACEHOLDERS[k];
            && NoStraddle(t, rest, p)
            && ReplaceAll(t, p, DecimalString(FieldValue(k, x, y, invertedY, z))) == PieceText(piece, k + 1, x, y, invertedY, z)
  {
    var t, p := PieceText(piece, k, x, y, invertedY, z), PLACEHOLDERS[k];
    var d := DecimalString(FieldValue(k, x, y, invertedY, z));
    PlaceholderShape(k);
    if piece.Text? || piece.slot < k {
      HeadAbsent(t, rest, p);
      ReplaceAllWithoutMatch(t, p, d);
    } else {
      PlaceholderShape(piece.slot);
      ClosedAtEnd(t, rest, p, '}');
      if piece.slot == k {
        assert t[..|p|] == p && t[|p|..] == [];
        assert ReplaceAll(t, p, d) == d + ReplaceAll([], p, d);
      } else {
        LaterPlaceholdersAbsent(piece.slot, k);
        ReplaceAllWithoutMatch(t, p, d);
      }
    }
  }

  /** Pass `k` of the substitution moves the whole rendering on by one placeholder. */
  lemma {:induction false} RenderPass(pieces: seq<Piece>, k: Slot, x: uint32, y: uint32, invertedY: uint32, z: uint32)
    requires WellFormed(pieces)
    ensures ReplaceAll(Render(pieces, k, x, y, invertedY, z), PLACEHOLDERS[k], DecimalString(FieldValue(k, x, y, invertedY, z)))
            == Render(pieces, k + 1, x, y, invertedY, z)
    decreases |pieces|
  {
    if pieces != [] {
      var rest := Render(pieces[1..], k, x, y, invertedY, z);
      PiecePass(pieces[0], rest, k, x, y, invertedY, z);
      PlaceholderShape(k);
      ReplaceAllAppend(PieceText(pieces[0], k, x, y, invertedY, z), rest, PLACEHOLDERS[k],
                       DecimalString(FieldValue(k, x, y, invertedY, z)));
      assert WellFormed(pieces[1..]) by {
        forall i | 0 <= i < |pieces[1..]| && pieces[1..][i].Text?
          ensures Literal(pieces[1..][i].text)
        {
          assert pieces[1..][i] == pieces[i + 1];
        }
      }
      RenderPass(pieces[1..], k, x, y, invertedY, z);
    }
  }

  /**
   * Substitution on any template made of literal text and placeholders:
   * the text stays as it is and each placeholder becomes the decimal digits
   * of its value, whatever digits the earlier placeholders received.
   */
  lemma SubstituteFillsFields(pieces: seq<Piece>, x: uint32, y: uint32, invertedY: uint32, z: uint32)
    requires WellFormed(pieces)
    ensures Substitute(Render(pieces, 0, x, y, invertedY, z), x, y, invertedY, z)
            == Render(pieces, |PLACEHOLDERS|, x, y, invertedY, z)
  {
    forall k: Slot
      ensures ReplaceAll(Render(pieces, k, x, y, invertedY, z), PLACEHOLDERS[k],
                         DecimalString(FieldValue(k, x, y, invertedY, z)))
              == Render(pieces, k + 1, x, y, invertedY, z)
    {
      RenderPass(pieces, k, x, y, invertedY, z);
    }
    assert FieldValue(0, x, y, invertedY, z) == x && FieldValue(4, x, y, invertedY, z) == x;
    assert FieldValue(1, x, y, invertedY, z) == y && FieldValue(5, x, y, invertedY, z) == y;
    assert FieldValue(2, x, y, invertedY, z) == invertedY && FieldValue(6, x, y, invertedY, z) == invertedY;
    assert FieldValue(3, x, y, invertedY, z) == z && FieldValue(7, x, y, invertedY, z) == z;
    assert PLACEHOLDERS[0] == X_TOKEN && PLACEHOLDERS[1] == Y_TOKEN;
    assert PLACEHOLDERS[2] == INV_Y_TOKEN && PLACEHOLDERS[3] == Z_TOKEN;
    assert PLACEHOLDERS[4] == LEGACY_X_TOKEN && PLACEHOLDERS[5] == LEGACY_Y_TOKEN;
    assert PLACEHOLDERS[6] == LEGACY_INV_Y_TOKEN && PLACEHOLDERS[7] == LEGACY_Z_TOKEN;
  }

  /** `std::string::find` for one character: the first index holding `c`. */
  function Find(s: string, c: char): (r: Option<nat>)
    ensures r.Some? ==> r.value < |s| && s[r.value] == c && forall j :: 0 <= j < r.value ==> s[j] != c
    ensures r.None? <==> c !in s
  {
    if s == [] then None
    else if s[0] == c then Some(0)
    else match Find(s[1..], c)
      case None => None
      case Some(i) => Some(i + 1)
  }

  /**
   * The rotation group `openImplementation` extracts from a template: the
   * text from the first '[' through the first ']', and the characters
   * between them. There is a group only when the ']' comes at least two
   * places after the '['.
   */
  function RotationGroup(template: string): (g: Option<(string, string)>)
    ensures g.Some? <==> Find(template, '[').Some? && Find(template, ']').Some?
                         && Find(template, ']').value > Find(template, '[').value + 1
    ensures g.Some? ==>
              var start, end := Find(template, '[').value, Find(template, ']').value;
              g.value.0 == template[start..end + 1] && g.value.1 == template[start + 1..end]
    ensures g.Some? ==> g.value.1 != [] && g.value.0 == ['['] + g.value.1 + [']']
  {
    var start, end := Find(template, '['), Find(template, ']');
    if start.Some? && end.Some? && end.value > start.value + 1 then
      Some((template[start.value..end.value + 1], template[start.value + 1..end.value]))
    else None
  }

  /** `std::string::substr(pos, count)`: at most `count` characters from `pos`. */
  function Substr(s: string, pos: nat, count: nat): (r: string)
    requires pos <= |s|
    ensures |r| <= count && pos + |r| <= |s| && r == s[pos..pos + |r|]
    ensures pos + count <= |s| ==> |r| == count
    ensures pos + count > |s| ==> r == s[pos..]
  {
    if pos + count <= |s| then s[pos..pos + count] else s[pos..]
  }

  /** `a - b` on two `size_t` values: the difference wrapped into 64 bits. */
  function SizeTSub(a: nat, b: nat): (d: nat)
    requires a < SIZE_T_LIMIT && b < SIZE_T_LIMIT
    ensures d < SIZE_T_LIMIT
  {
    if b <= a then a - b else a - b + SIZE_T_LIMIT
  }

  /** `a + b` on two `size_t` values: the sum wrapped into 64 bits. */
  function SizeTAdd(a: nat, b: nat): (s: nat)
    requires a < SIZE_T_LIMIT && b < SIZE_T_LIMIT
    ensures s < SIZE_T_LIMIT
  {
    if a + b < SIZE_T_LIMIT then a + b else a + b - SIZE_T_LIMIT
  }

  /** Both operations are the exact result reduced modulo 2^64. */
  lemma SizeTWraps(a: nat, b: nat)
    requires a < SIZE_T_LIMIT && b < SIZE_T_LIMIT
    ensures SizeTSub(a, b) == (a - b) % SIZE_T_LIMIT
    ensures SizeTAdd(a, b) == (a + b) % SIZE_T_LIMIT
  {
    if b <= a {
      DivModUnique(a - b, SIZE_T_LIMIT, 0, a - b);
    } else {
      DivModUnique(a - b, SIZE_T_LIMIT, -1, a - b + SIZE_T_LIMIT);
    }
    if a + b < SIZE_T_LIMIT {
      DivModUnique(a + b, SIZE_T_LIMIT, 0, a + b);
    } else {
      DivModUnique(a + b, SIZE_T_LIMIT, 1, a + b - SIZE_T_LIMIT);
    }
  }

  /**
   * The group test as the source writes it: `end - start > 1` on unsigned
   * positions, so an ']' that comes BEFORE the '[' wraps around and passes.
   * A `std::string` is shorter than 2^64 characters.
   */
  function RotationGroupAsWritten(template: string): (g: Option<(string, string)>)
    requires |template| < SIZE_T_LIMIT
    ensures g.Some? <==> Find(template, '[').Some? && Find(template, ']').Some?
                         && Find(template, ']').value != Find(template, '[').value + 1
  {
    var start, end := Find(template, '['), Find(template, ']');
    if start.Some? && end.Some? then GroupAsWrittenAt(template, start.value, end.value) else None
  }

  /** The guard and the two `substr` calls, for a '[' at `start` and a ']' at `end`. */
  function GroupAsWrittenAt(template: string, start: nat, end: nat): (g: Option<(string, string)>)
    requires start < |template| < SIZE_T_LIMIT && end < |template|
    ensures start != end ==> (g.Some? <==> end != start + 1)
    ensures start + 1 < end ==> g == Some((template[start..end + 1], template[start + 1..end]))
  {
    var span := SizeTSub(end, start);
    if span > 1 then
      Some((Substr(template, start, SizeTAdd(span, 1)), Substr(template, start + 1, SizeTSub(span, 1))))
    else None
  }

  /** When the ']' comes after the '[', the unsigned test and the intended one agree. */
  lemma AsWrittenAgreesWhenOrdered(template: string)
    requires |template| < SIZE_T_LIMIT
    requires Find(template, '[').Some? && Find(template, ']').Some?
    requires Find(template, ']').value > Find(template, '[').value
    ensures RotationGroupAsWritten(template) == RotationGroup(template)
  {
    var start, end := Find(template, '['), Find(template, ']');
    var mine := RotationGroupAsWritten(template);
    var intended := RotationGroup(template);
    assert mine == GroupAsWrittenAt(template, start.value, end.value);
    assert mine.Some? == intended.Some?;
    if mine.Some? {
      assert mine.value == intended.value;
    }
  }

  /** When the ']' comes first, the unsigned test accepts anyway; the intended test does not. */
  lemma AsWrittenAcceptsReversedBrackets(template: string)
    requires |template| < SIZE_T_LIMIT
    requires Find(template, '[').Some? && Find(template, ']').Some?
    requires Find(template, ']').value < Find(template, '[').value
    ensures RotationGroupAsWritten(template).Some?
    ensures Find(template, ']').value + 1 < Find(template, '[').value ==>
              && RotationGroupAsWritten(template).value.0 == template[Find(template, '[').value..]
              && RotationGroupAsWritten(template).value.1 == template[Find(template, '[').value + 1..]
    ensures RotationGroup(template).None?
  {
  }

  /** The concrete case: "a]b[cd" gets the rotation string "[cd" with choices "cd". */
  lemma ReversedBracketsExample()
    ensures RotationGroupAsWritten("a]b[cd") == Some(("[cd", "cd"))
    ensures RotationGroup("a]b[cd") == None
  {
    var t := "a]b[cd";
    assert Find(t[3..], '[') == Some(0);
    assert Find(t, '[') == Some(3);
    assert Find(t[1..], ']') == Some(0);
    assert Find(t, ']') == Some(1);
    AsWrittenAcceptsReversedBrackets(t);
    assert t[3..] == "[cd" && t[4..] == "cd";
  }

  /** The choice taken when the counter, before the call, stands at `iter`. */
  function RotationIndex(iter: uint32, choices: nat): (index: nat)
    requires choices > 0
    ensures index < choices
    ensures index == ((iter + 1) % UINT32_LIMIT) % choices
  {
    ((iter + 1) % UINT32_LIMIT) % choices
  }

  /** Successive calls step through the choices in order and wrap to the first. */
  lemma RotationCycles(iter: uint32, choices: nat)
    requires choices > 0 && iter + 2 < UINT32_LIMIT
    ensures RotationIndex(iter + 1, choices) == (RotationIndex(iter, choices) + 1) % choices
  {
    assert (iter + 1) % UINT32_LIMIT == iter + 1;
    assert (iter + 2) % UINT32_LIMIT == iter + 2;
    assert RotationIndex(iter + 1, choices) == (iter + 2) % choices;
    ModSuccessor(iter + 1, choices);
  }

  lemma ModSuccessor(a: nat, n: nat)
    requires n > 0
    ensures (a + 1) % n == (a % n + 1) % n
  {
    var q, r := a / n, a % n;
    if r + 1 < n {
      DivModUnique(a + 1, n, q, r + 1);
      DivModUnique(r + 1, n, 0, r + 1);
    } else {
      assert (q + 1) * n == q * n + n;
      DivModUnique(a + 1, n, q + 1, 0);
      DivModUnique(n, n, 1, 0);
    }
  }

  lemma MulBounds(k: int, n: int)
    requires n > 0
    ensures k >= 1 ==> k * n >= n
    ensures k <= -1 ==> k * n <= -n
  {
  }

  /** Euclidean division has one quotient and one remainder. */
  lemma DivModUnique(a: int, n: int, q: int, r: int)
    requires n > 0 && 0 <= r < n && a == q * n + r
    ensures a / n == q && a % n == r
  {
    var q', r' := a / n, a % n;
    assert a == q' * n + r';
    assert (q - q') * n == r' - r;
    MulBounds(q - q', n);
  }

  datatype Status = StatusOK | StatusError(message: string)

  /** The layer's template state; its options are fixed when it is configured. */
  class TerrainMeshLayer {
    const invertY: bool
    var template: string
    var rotateString: string
    var rotateChoices: string
    var rotateIter: uint32

    /** Either no rotation group, or the group exactly as RotationGroup extracts it. */
    ghost predicate Valid()
      reads this
    {
      (rotateChoices == [] && rotateString == [])
      || (rotateChoices != [] && rotateString == ['['] + rotateChoices + [']'])
    }

    constructor (invertYSetting: Option<bool>)
      ensures Valid()
      ensures invertY == InvertYOption(invertYSetting)
      ensures template == [] && rotateString == [] && rotateChoices == [] && rotateIter == 0
    {
      invertY := InvertYOption(invertYSetting);
      template := [];
      rotateString := [];
      rotateChoices := [];
      rotateIter := 0;
    }

    /**
     * `openImplementation`: after the base layer opened (`parent`), take the
     * full URI as the template and pick up its rotation group, if any.
     */
    method Open(parent: Status, uri: string) returns (status: Status)
      requires Valid()
      modifies this`template, this`rotateString, this`rotateChoices
      ensures Valid()
      ensures parent.StatusError? ==>
                status == parent && template == old(template)
                && rotateString == old(rotateString) && rotateChoices == old(rotateChoices)
      ensures parent.StatusOK? ==> status == StatusOK && template == uri
      ensures parent.StatusOK? && RotationGroup(uri).Some? ==>
                rotateString == RotationGroup(uri).value.0 && rotateChoices == RotationGroup(uri).value.1
      ensures parent.StatusOK? && RotationGroup(uri).None? ==>
                rotateString == old(rotateString) && rotateChoices == old(rotateChoices)
    {
      if parent.StatusError? {
        return parent;
      }
      template := uri;
      var start := Find(template, '[');
      var end := Find(template, ']');
      if start.Some? && end.Some? && end.value > start.value + 1 {
        rotateString := template[start.value..end.value + 1];
        rotateChoices := template[start.value + 1..end.value];
      }
      status := StatusOK;
    }

    /**
     * `createURI` for the tile at column `x`, row `y` of level `lod`, in a
     * profile with `rows` rows at that level.
     */
    method CreateURI(x: uint32, y: uint32, lod: uint32, rows: uint32) returns (location: string)
      requires Valid()
      modifies this`rotateIter
      ensures Valid()
      ensures rotateChoices == [] ==>
                rotateIter == old(rotateIter)
                && location == Substitute(template, x, RowFor(invertY, rows, y), InvertedY(rows, y), lod)
      ensures rotateChoices != [] ==>
                rotateIter == (old(rotateIter) + 1) % UINT32_LIMIT
                && location == ReplaceAll(Substitute(template, x, RowFor(invertY, rows, y), InvertedY(rows, y), lod),
                                          rotateString, [rotateChoices[RotationIndex(old(rotateIter), |rotateChoices|)]])
      // the text replaced is the whole bracketed group, brackets included
      ensures rotateChoices != [] ==>
                location == ReplaceAll(Substitute(template, x, RowFor(invertY, rows, y), InvertedY(rows, y), lod),
                                       ['['] + rotateChoices + [']'], [rotateChoices[RotationIndex(old(rotateIter), |rotateChoices|)]])
    {
      var invertedY := InvertedY(rows, y);
      var row := y;
      if invertY {
        row := invertedY;
      }

      location := template;

      location := ReplaceAll(location, X_TOKEN, DecimalString(x));
      location := ReplaceAll(location, Y_TOKEN, DecimalString(row));
      location := ReplaceAll(location, INV_Y_TOKEN, DecimalString(invertedY));
      location := ReplaceAll(location, Z_TOKEN, DecimalString(lod));

      location := ReplaceAll(location, LEGACY_X_TOKEN, DecimalString(x));
      location := ReplaceAll(location, LEGACY_Y_TOKEN, DecimalString(row));
      location := ReplaceAll(location, LEGACY_INV_Y_TOKEN, DecimalString(invertedY));
      location := ReplaceAll(location, LEGACY_Z_TOKEN, DecimalString(lod));

      if rotateChoices != [] {
        rotateIter := (rotateIter + 1) % UINT32_LIMIT;
        var index := rotateIter % |rotateChoices|;
        location := ReplaceAll(location, rotateString, [rotateChoices[index]]);
      }
    }
  }
}
