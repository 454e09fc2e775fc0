/** The Wavefront OBJ/MTL loader of mesh.cc: a line-oriented command lexer
    over a NUL-terminated character buffer, followed by the de-duplication
    of (position, texture, normal, material) index groups into the shared
    vertex and index buffers.

    The buffer is a string; reading at or past its end, or at an embedded
    NUL, sees '\0', which ends every loop of the lexer as it does in the
    source. File contents come from a map from path to text; a path that is
    missing there is a file `read_file` cannot open, which ends the process.
    Decimal-to-float conversion (`strtof`) is the oracle `value` applied to
    the token the conversion consumes; normalisation of normals is the
    oracle `normalize`. */
module MeshLoader {
  import opened MathCore
  import opened Wrappers

  // ---------------------------------------------------------------------
  // The character cursor

  /** `isspace` in the "C" locale. */
  predicate IsSpace(c: char)
  {
    c == ' ' || c == '\t' || c == '\n' || c == '\U{B}' || c == '\U{C}' || c == '\r'
  }

  /** `*str` for a cursor at position p. */
  function Cur(text: string, p: nat): char
  {
    if p < |text| then text[p] else '\0'
  }

  /** Where `while(isspace(*str)) ++str;` stops. */
  function SkipSpaces(text: string, p: nat): (q: nat)
    requires p <= |text|
    ensures p <= q <= |text| && !IsSpace(Cur(text, q))
    decreases |text| - p
  {
    if IsSpace(Cur(text, p)) then SkipSpaces(text, p + 1) else p
  }

  /** Where a scan over characters that are neither white space nor NUL
      stops. */
  function TokenEnd(text: string, p: nat): (q: nat)
    requires p <= |text|
    ensures p <= q <= |text| && (IsSpace(Cur(text, q)) || Cur(text, q) == '\0')
    decreases |text| - p
  {
    if IsSpace(Cur(text, p)) || Cur(text, p) == '\0' then p else TokenEnd(text, p + 1)
  }

  /** Where `while(*str && *str != '\n') str++;` stops: at the end of the
      line, before its newline. */
  function LineEnd(text: string, p: nat): (q: nat)
    requires p <= |text|
    ensures p <= q <= |text| && (Cur(text, q) == '\n' || Cur(text, q) == '\0')
    decreases |text| - p
  {
    if Cur(text, p) == '\n' || Cur(text, p) == '\0' then p else LineEnd(text, p + 1)
  }

  /** Everything SkipSpaces passes over is white space. */
  lemma {:induction false} SkipSpacesSkipsSpaces(text: string, p: nat)
    requires p <= |text|
    ensures forall k | p <= k < SkipSpaces(text, p) :: IsSpace(text[k])
    decreases |text| - p
  {
    if IsSpace(Cur(text, p)) {
      SkipSpacesSkipsSpaces(text, p + 1);
    }
  }

  /** Everything TokenEnd passes over is neither white space nor NUL. */
  lemma {:induction false} TokenEndSpansToken(text: string, p: nat)
    requires p <= |text|
    ensures forall k | p <= k < TokenEnd(text, p) :: !IsSpace(text[k]) && text[k] != '\0'
    decreases |text| - p
  {
    if !(IsSpace(Cur(text, p)) || Cur(text, p) == '\0') {
      TokenEndSpansToken(text, p + 1);
    }
  }

  /** Everything LineEnd passes over is neither a newline nor NUL. */
  lemma {:induction false} LineEndSpansLine(text: string, p: nat)
    requires p <= |text|
    ensures forall k | p <= k < LineEnd(text, p) :: text[k] != '\n' && text[k] != '\0'
    decreases |text| - p
  {
    if !(Cur(text, p) == '\n' || Cur(text, p) == '\0') {
      LineEndSpansLine(text, p + 1);
    }
  }

  method SkipWhitespace(text: string, p: nat) returns (q: nat)
    requires p <= |text|
    ensures q == SkipSpaces(text, p)
  {
    q := p;
    while IsSpace(Cur(text, q))
      invariant p <= q <= |text| && SkipSpaces(text, q) == SkipSpaces(text, p)
      decreases |text| - q
    {
      q := q + 1;
    }
  }

  /** The loop that measures a command or a name: the maximal run of
      characters that are neither white space nor NUL. */
  method ScanToken(text: string, p: nat) returns (q: nat)
    requires p <= |text|
    ensures q == TokenEnd(text, p)
  {
    q := p;
    while Cur(text, q) != '\0' && !IsSpace(Cur(text, q))
      invariant p <= q <= |text| && TokenEnd(text, q) == TokenEnd(text, p)
      decreases |text| - q
    {
      q := q + 1;
    }
  }

  method SkipLine(text: string, p: nat) returns (q: nat)
    requires p <= |text|
    ensures q == LineEnd(text, p)
  {
    q := p;
    while Cur(text, q) != '\0' && Cur(text, q) != '\n'
      invariant p <= q <= |text| && LineEnd(text, q) == LineEnd(text, p)
      decreases |text| - q
    {
      q := q + 1;
    }
  }

  /** What `read_string` returns at p, with the cursor after it: white
      space is skipped and the following run of characters that are neither
      white space nor NUL is the result. */
  function NameAt(text: string, p: nat): (r: (string, nat))
    requires p <= |text|
    ensures var (s, q) := r;
      p + |s| <= q <= |text| && s == text[q - |s|..q] &&
      (forall k | p <= k < q - |s| :: IsSpace(text[k])) &&
      (forall k | 0 <= k < |s| :: !IsSpace(s[k]) && s[k] != '\0') &&
      (IsSpace(Cur(text, q)) || Cur(text, q) == '\0') &&
      (|s| == 0 ==> !IsSpace(Cur(text, q)))
  {
    var s := SkipSpaces(text, p);
    var e := TokenEnd(text, s);
    SkipSpacesSkipsSpaces(text, p);
    TokenEndSpansToken(text, s);
    (text[s..e], e)
  }

  /** `read_string`. */
  method ReadString(text: string, p: nat) returns (s: string, q: nat)
    requires p <= |text|
    ensures (s, q) == NameAt(text, p)
  {
    var start := SkipWhitespace(text, p);
    q := ScanToken(text, start);
    s := text[start..q];
  }

  // ---------------------------------------------------------------------
  // strncmp

  function CharAt(s: string, i: nat): char
  {
    if i < |s| then s[i] else '\0'
  }

  /** `strncmp(a, b, n) == 0` for NUL-terminated `a` and `b`. */
  predicate StrnEqual(a: string, b: string, n: nat)
    decreases n
  {
    n == 0 ||
    (CharAt(a, 0) == CharAt(b, 0) && (CharAt(a, 0) == '\0' || StrnEqual(a[1..], b[1..], n - 1)))
  }

  predicate NoNul(s: string)
  {
    forall k | 0 <= k < |s| :: s[k] != '\0'
  }

  /** Comparing a command with a name over the command's own length
      accepts exactly the prefixes of the name, the empty command
      included. */
  lemma {:induction false} StrnEqualIsPrefix(cmd: string, name: string)
    requires NoNul(cmd) && NoNul(name)
    ensures StrnEqual(cmd, name, |cmd|) <==> cmd <= name
  {
    if |cmd| > 0 {
      if |name| > 0 && cmd[0] == name[0] {
        StrnEqualIsPrefix(cmd[1..], name[1..]);
        assert cmd <= name <==> cmd[1..] <= name[1..];
      }
    }
  }

  // ---------------------------------------------------------------------
  // Numbers: strtol with base 0 and strtof

  /** Value of a digit or letter in bases up to 16; 16 for anything else. */
  function HexValue(c: char): (d: nat)
    ensures d <= 16
  {
    if '0' <= c <= '9' then c as int - '0' as int
    else if 'a' <= c <= 'f' then c as int - 'a' as int + 10
    else if 'A' <= c <= 'F' then c as int - 'A' as int + 10
    else 16
  }

  predicate IsDigitIn(c: char, base: nat) { HexValue(c) < base }

  /** End of the maximal run of digits of `base` starting at p. */
  function DigitsEnd(text: string, p: nat, base: nat): (q: nat)
    requires p <= |text| && base <= 16
    ensures p <= q <= |text| && !IsDigitIn(Cur(text, q), base)
    decreases |text| - p
  {
    if IsDigitIn(Cur(text, p), base) then DigitsEnd(text, p + 1, base) else p
  }

  /** Everything DigitsEnd passes over is a digit of `base`. */
  lemma {:induction false} DigitsEndSpansDigits(text: string, p: nat, base: nat)
    requires p <= |text| && base <= 16
    ensures forall k | p <= k < DigitsEnd(text, p, base) :: IsDigitIn(text[k], base)
    decreases |text| - p
  {
    if IsDigitIn(Cur(text, p), base) {
      DigitsEndSpansDigits(text, p + 1, base);
    }
  }

  /** Value of the digits text[s..e] in `base`, most significant first. */
  function DigitsValue(text: string, s: nat, e: nat, base: nat): (v: nat)
    requires s <= e <= |text|
    decreases e
  {
    if e <= s then 0 else DigitsValue(text, s, e - 1, base) * base + HexValue(text[e - 1])
  }

  /** Past an optional '+' or '-'. */
  function SignEnd(text: string, p: nat): (q: nat)
    requires p <= |text|
    ensures q <= |text| && (q == p || q == p + 1)
  {
    if Cur(text, p) == '+' || Cur(text, p) == '-' then p + 1 else p
  }

  /** `strtol(str, &end, 0)`: optional white space and sign, then a
      hexadecimal number after "0x" or "0X", an octal number after a leading
      '0', or a decimal number. When no digit follows, nothing is converted:
      the value is 0 and the end is the starting cursor itself. */
  function Strtol(text: string, p: nat): (r: (int, nat))
    requires p <= |text|
    ensures p <= r.1 <= |text|
    ensures r.1 == p ==> r.0 == 0
  {
    var s := SkipSpaces(text, p);
    var d := SignEnd(text, s);
    var neg := Cur(text, s) == '-';
    if Cur(text, d) == '0' && (Cur(text, d + 1) == 'x' || Cur(text, d + 1) == 'X')
       && IsDigitIn(Cur(text, d + 2), 16) then
      var e := DigitsEnd(text, d + 2, 16);
      (Signed(neg, DigitsValue(text, d + 2, e, 16)), e)
    else if Cur(text, d) == '0' then
      var e := DigitsEnd(text, d, 8);
      (Signed(neg, DigitsValue(text, d, e, 8)), e)
    else if IsDigitIn(Cur(text, d), 10) then
      var e := DigitsEnd(text, d, 10);
      (Signed(neg, DigitsValue(text, d, e, 10)), e)
    else
      (0, p)
  }

  function Signed(neg: bool, v: nat): int { if neg then -(v as int) else v }

  /** End of an optional exponent part at f: 'e' or 'E', an optional sign
      and at least one digit; f itself when there is none. */
  function ExponentEnd(text: string, f: nat): (q: nat)
    requires f <= |text|
    ensures f <= q <= |text|
  {
    if Cur(text, f) == 'e' || Cur(text, f) == 'E' then
      var x := SignEnd(text, f + 1);
      var y := DigitsEnd(text, x, 10);
      if y > x then y else f
    else f
  }

  /** `strtof(str, &end)` on decimal notation: optional white space and
      sign, digits with an optional fraction holding at least one digit in
      all, then an optional exponent. The value of the consumed characters
      is the oracle `value`. Without a digit nothing is converted: the value
      is 0 and the end is the starting cursor itself. */
  function Strtof(text: string, p: nat, value: string -> real): (r: (real, nat))
    requires p <= |text|
    ensures p <= r.1 <= |text|
    ensures r.1 == p ==> r.0 == 0.0
    ensures r.1 > p ==> SkipSpaces(text, p) < r.1 && r.0 == value(text[SkipSpaces(text, p)..r.1])
  {
    var s := SkipSpaces(text, p);
    var m := SignEnd(text, s);
    var i := DigitsEnd(text, m, 10);
    var f := if Cur(text, i) == '.' then DigitsEnd(text, i + 1, 10) else i;
    if i == m && f <= i + 1 then (0.0, p)
    else
      var e := ExponentEnd(text, f);
      (value(text[s..e]), e)
  }

  function Strtof2(text: string, p: nat, value: string -> real): (r: (Vec2, nat))
    requires p <= |text|
    ensures p <= r.1 <= |text|
  {
    var (x, p1) := Strtof(text, p, value);
    var (y, p2) := Strtof(text, p1, value);
    (Vec2(x, y), p2)
  }

  function Strtof3(text: string, p: nat, value: string -> real): (r: (Vec3, nat))
    requires p <= |text|
    ensures p <= r.1 <= |text|
  {
    var (x, p1) := Strtof(text, p, value);
    var (y, p2) := Strtof(text, p1, value);
    var (z, p3) := Strtof(text, p2, value);
    (Vec3(x, y, z), p3)
  }

  // ---------------------------------------------------------------------
  // Materials (.mtl)

  datatype MtlMaterial = MtlMaterial(
    name: string, albedo: Vec3, alpha: real, emission: Vec3,
    roughness: real, metallicness: real, transmission: Vec3)

  /** A material as `newmtl` creates it: white, alpha 0, not emissive,
      fully rough, not metallic, not transmissive. */
  function DefaultMaterial(name: string): MtlMaterial
  {
    MtlMaterial(name, Vec3(1.0, 1.0, 1.0), 0.0, Vec3(0.0, 0.0, 0.0), 1.0, 0.0, Vec3(0.0, 0.0, 0.0))
  }

  /** The material list being extended and whether this file has opened a
      material yet (the source's `mat` variable, which always designates the last
      material once set). */
  datatype MtlState = MtlState(materials: seq<MtlMaterial>, open: bool)
  {
    predicate Valid() { open ==> |materials| > 0 }
  }

  function SetLast(st: MtlState, m: MtlMaterial): (r: MtlState)
    requires st.Valid() && st.open
    ensures r.Valid() && r.open && |r.materials| == |st.materials|
  {
    MtlState(st.materials[|st.materials| - 1 := m], true)
  }

  /** One MTL command, `cmd`, whose arguments start at q. A command matches
      a keyword it is a prefix of; the first match in the order newmtl, Kd,
      Ke, d, Pr, Pm, Tf wins, and only newmtl acts before a material is
      open. */
  function MtlCommand(text: string, q: nat, cmd: string, st: MtlState, value: string -> real): (r: (MtlState, nat))
    requires q <= |text| && st.Valid()
    ensures q <= r.1 <= |text| && r.0.Valid()
    ensures r.0.open == (st.open || cmd <= "newmtl")
    ensures |r.0.materials| == |st.materials| + (if cmd <= "newmtl" then 1 else 0)
    ensures cmd <= "newmtl" ==>
      r == (MtlState(st.materials + [DefaultMaterial(NameAt(text, q).0)], true), NameAt(text, q).1)
    ensures !(cmd <= "newmtl") && st.open ==>
      r.0.materials[..|st.materials| - 1] == st.materials[..|st.materials| - 1]
    ensures !(cmd <= "newmtl") && !st.open ==> r == (st, q)
  {
    if cmd <= "newmtl" then
      var (name, q') := NameAt(text, q);
      (MtlState(st.materials + [DefaultMaterial(name)], true), q')
    else if !st.open then (st, q)
    else
      var (m, q') := MtlEdit(text, q, cmd, st.materials[|st.materials| - 1], value);
      (SetLast(st, m), q')
  }

  /** An attribute command applied to the open material: Kd, Ke, d, Pr, Pm
      or Tf, tried in that order; any other command leaves it as it is. */
  function MtlEdit(text: string, q: nat, cmd: string, m: MtlMaterial, value: string -> real): (r: (MtlMaterial, nat))
    requires q <= |text|
    ensures q <= r.1 <= |text| && r.0.name == m.name
  {
    if cmd <= "Kd" then
      var (v, q') := Strtof3(text, q, value);
      (m.(albedo := v), q')
    else if cmd <= "Ke" then
      var (v, q') := Strtof3(text, q, value);
      (m.(emission := v), q')
    else if cmd <= "d" then
      var (v, q') := Strtof(text, q, value);
      (m.(alpha := v), q')
    else if cmd <= "Pr" then
      var (v, q') := Strtof(text, q, value);
      (m.(roughness := v), q')
    else if cmd <= "Pm" then
      var (v, q') := Strtof(text, q, value);
      (m.(metallicness := v), q')
    else if cmd <= "Tf" then
      var (v, q') := Strtof3(text, q, value);
      (m.(transmission := v), q')
    else (m, q)
  }

  /** The MTL loop from cursor p to the terminating NUL: skip white space,
      take the command, act on it, skip the rest of the line. */
  function MtlParse(text: string, p: nat, st: MtlState, value: string -> real): (r: MtlState)
    requires p <= |text| && st.Valid()
    ensures r.Valid()
    decreases |text| - p
  {
    if Cur(text, p) == '\0' then st
    else
      var s := SkipSpaces(text, p);
      var e := TokenEnd(text, s);
      var (st', q) := MtlCommand(text, e, text[s..e], st, value);
      MtlParse(text, LineEnd(text, q), st', value)
  }

  /** A material file only appends materials and edits the ones it
      declared itself: every material loaded before it is left as it
      was. */
  lemma {:induction false} MtlParseKeepsEarlier(text: string, p: nat, st: MtlState, value: string -> real)
    requires p <= |text| && st.Valid()
    ensures var n := |st.materials| - (if st.open then 1 else 0);
      |MtlParse(text, p, st, value).materials| >= |st.materials| &&
      MtlParse(text, p, st, value).materials[..n] == st.materials[..n]
    decreases |text| - p
  {
    if Cur(text, p) != '\0' {
      var s := SkipSpaces(text, p);
      var e := TokenEnd(text, s);
      var (st', q) := MtlCommand(text, e, text[s..e], st, value);
      MtlParseKeepsEarlier(text, LineEnd(text, q), st', value);
      var n := |st.materials| - (if st.open then 1 else 0);
      var n' := |st'.materials| - (if st'.open then 1 else 0);
      assert n <= n';
      var r := MtlParse(text, p, st, value);
      assert r.materials[..n] == r.materials[..n'][..n];
    }
  }

  /** A file that declares no material yet (the state `load_mtl` starts
      in) leaves all earlier materials unchanged. */
  lemma LoadMtlKeepsEarlier(text: string, materials: seq<MtlMaterial>, value: string -> real)
    ensures materials <= MtlParse(text, 0, MtlState(materials, false), value).materials
  {
    MtlParseKeepsEarlier(text, 0, MtlState(materials, false), value);
  }

  /** `load_mtl`. */
  method LoadMtl(materials: seq<MtlMaterial>, text: string, value: string -> real) returns (result: seq<MtlMaterial>)
    ensures result == MtlParse(text, 0, MtlState(materials, false), value).materials
  {
    var p := 0;
    var mats := materials;
    var open := false;
    while Cur(text, p) != '\0'
      invariant p <= |text| && (open ==> |mats| > 0)
      invariant MtlParse(text, p, MtlState(mats, open), value) == MtlParse(text, 0, MtlState(materials, false), value)
      decreases |text| - p
    {
      ghost var before := MtlState(mats, open);
      p := SkipWhitespace(text, p);
      var start := p;
      p := ScanToken(text, p);
      var cmd := text[start..p];
      ghost var after := MtlCommand(text, p, cmd, before, value);
      if cmd <= "newmtl" {
        var name;
        name, p := ReadString(text, p);
        mats := mats + [DefaultMaterial(name)];
        open := true;
        assert (MtlState(mats, open), p) == after;
      } else if !open {
        assert (MtlState(mats, open), p) == after;
      } else {
        var m, q := EditMaterial(text, p, cmd, mats[|mats| - 1], value);
        mats := mats[|mats| - 1 := m];
        p := q;
        assert (MtlState(mats, open), p) == after;
      }
      p := SkipLine(text, p);
    }
    result := mats;
  }

  /** The attribute branches of `load_mtl`. */
  method EditMaterial(text: string, p: nat, cmd: string, m: MtlMaterial, value: string -> real)
    returns (m': MtlMaterial, q: nat)
    requires p <= |text|
    ensures (m', q) == MtlEdit(text, p, cmd, m, value)
  {
    m', q := m, p;
    if cmd <= "Kd" {
      var (v, q') := Strtof3(text, p, value);
      m', q := m.(albedo := v), q';
    } else if cmd <= "Ke" {
      var (v, q') := Strtof3(text, p, value);
      m', q := m.(emission := v), q';
    } else if cmd <= "d" {
      var (v, q') := Strtof(text, p, value);
      m', q := m.(alpha := v), q';
    } else if cmd <= "Pr" {
      var (v, q') := Strtof(text, p, value);
      m', q := m.(roughness := v), q';
    } else if cmd <= "Pm" {
      var (v, q') := Strtof(text, p, value);
      m', q := m.(metallicness := v), q';
    } else if cmd <= "Tf" {
      var (v, q') := Strtof3(text, p, value);
      m', q := m.(transmission := v), q';
    }
  }

  /** The `usemtl` search: the first material with the given name. */
  function FindMaterial(materials: seq<MtlMaterial>, name: string): (r: Option<nat>)
    ensures r.Some? ==> r.value < |materials| && materials[r.value].name == name
    ensures r.Some? ==> forall j | 0 <= j < r.value :: materials[j].name != name
    ensures r.None? ==> forall j | 0 <= j < |materials| :: materials[j].name != name
  {
    if |materials| == 0 then None
    else match FindMaterial(materials[..|materials| - 1], name)
      case Some(i) => Some(i)
      case None => if materials[|materials| - 1].name == name then Some(|materials| - 1) else None
  }

  method SelectMaterial(materials: seq<MtlMaterial>, name: string, active: nat) returns (r: nat)
    ensures r == match FindMaterial(materials, name) case Some(i) => i case None => active
  {
    r := active;
    for i := 0 to |materials|
      invariant forall j | 0 <= j < i :: materials[j].name != name
    {
      if materials[i].name == name {
        return i;
      }
    }
  }

  // ---------------------------------------------------------------------
  // Faces

  /** Zero-based (position, texture coordinate, normal, material) indices
      of one face corner; -1 where the face gives none. */
  datatype IndexGroup = IndexGroup(pos: int, tex: int, normal: int, material: int)

  /** One corner of an `f` line as mesh.cc reads it: three `strtol` calls
      separated by optional '/' characters. Because `strtol` skips leading
      white space, a corner written without slashes swallows the numbers of
      the following corners. */
  function FaceGroupAsWritten(text: string, p: nat, material: int): (r: (IndexGroup, nat))
    requires p <= |text|
    ensures p <= r.1 <= |text| && r.0.material == material
  {
    var a := Strtol(text, p);
    var b := Strtol(text, SkipSlash(text, a.1));
    var c := Strtol(text, SkipSlash(text, b.1));
    (IndexGroup(a.0 - 1, b.0 - 1, c.0 - 1, material), c.1)
  }

  /** `if(*str == '/') str++;` */
  function SkipSlash(text: string, q: nat): (r: nat)
    requires q <= |text|
    ensures q <= r <= |text|
  {
    if Cur(text, q) == '/' then q + 1 else q
  }

  /** One corner read as the OBJ format defines it: the texture index only
      after a first '/', the normal index only after a second one. */
  function FaceGroup(text: string, p: nat, material: int): (r: (IndexGroup, nat))
    requires p <= |text|
    ensures p <= r.1 <= |text| && r.0.material == material
    ensures Cur(text, Strtol(text, p).1) != '/' ==> r.0.tex == -1 && r.0.normal == -1
  {
    var a := Strtol(text, p);
    if Cur(text, a.1) != '/' then (IndexGroup(a.0 - 1, -1, -1, material), a.1)
    else
      var b := Strtol(text, a.1 + 1);
      if Cur(text, b.1) != '/' then (IndexGroup(a.0 - 1, b.0 - 1, -1, material), b.1)
      else
        var c := Strtol(text, b.1 + 1);
        (IndexGroup(a.0 - 1, b.0 - 1, c.0 - 1, material), c.1)
  }

  /** Corners written with both slashes ("v/t/n" and "v//n") are read the
      same way by both readers. */
  lemma FaceGroupAgreesWithSlashes(text: string, p: nat, material: int)
    requires p <= |text|
    requires Cur(text, Strtol(text, p).1) == '/'
    requires Cur(text, Strtol(text, Strtol(text, p).1 + 1).1) == '/'
    ensures FaceGroup(text, p, material) == FaceGroupAsWritten(text, p, material)
  {
    var a := Strtol(text, p);
    assert SkipSlash(text, a.1) == a.1 + 1;
    var b := Strtol(text, a.1 + 1);
    assert SkipSlash(text, b.1) == b.1 + 1;
  }

  /** strtol on one non-zero digit, which ends the text or is followed by
      a space or a '/'. */
  lemma StrtolDigit(text: string, p: nat, d: nat)
    requires p + 1 <= |text| && 1 <= d <= 9
    requires text[p] == (d + '0' as int) as char
    requires p + 1 == |text| || text[p + 1] == ' ' || text[p + 1] == '/'
    ensures Strtol(text, p) == (d, p + 1)
  {
    assert SkipSpaces(text, p) == p;
    assert DigitsEnd(text, p, 10) == p + 1 by {
      assert DigitsEnd(text, p + 1, 10) == p + 1;
    }
    assert DigitsValue(text, p, p + 1, 10) == d;
  }

  /** strtol on a space followed by one non-zero digit, which ends the
      text or is followed by a space or a '/'. */
  lemma StrtolDigitAfterSpace(text: string, p: nat, d: nat)
    requires p + 2 <= |text| && 1 <= d <= 9
    requires text[p] == ' ' && text[p + 1] == (d + '0' as int) as char
    requires p + 2 == |text| || text[p + 2] == ' ' || text[p + 2] == '/'
    ensures Strtol(text, p) == (d, p + 2)
  {
    assert SkipSpaces(text, p + 1) == p + 1;
    assert DigitsEnd(text, p + 1, 10) == p + 2 by {
      assert DigitsEnd(text, p + 2, 10) == p + 2;
    }
    assert DigitsValue(text, p + 1, p + 2, 10) == d;
  }

  /** The first n corners of a face starting at p. */
  function FaceGroups(text: string, p: nat, material: int, n: nat): (r: (seq<IndexGroup>, nat))
    requires p <= |text|
    ensures |r.0| == n && p <= r.1 <= |text|
    ensures forall k | 0 <= k < n :: r.0[k].material == material
  {
    if n == 0 then ([], p)
    else
      var prev := FaceGroups(text, p, material, n - 1);
      var g := FaceGroup(text, prev.1, material);
      (prev.0 + [g.0], g.1)
  }

  /** The arguments of a face line "f a b c" with single-digit,
      non-zero indices and no slashes. */
  predicate PlainFace(text: string, a: nat, b: nat, c: nat)
  {
    |text| == 6 && 1 <= a <= 9 && 1 <= b <= 9 && 1 <= c <= 9 &&
    text[0] == ' ' && text[1] == (a + '0' as int) as char &&
    text[2] == ' ' && text[3] == (b + '0' as int) as char &&
    text[4] == ' ' && text[5] == (c + '0' as int) as char
  }

  /** On "f a b c" the reader as written puts all three numbers into the
      first corner, as its texture and normal indices, and leaves the other
      two corners at -1 ("f 1 2 3" gives (0, 1, 2), (-1, -1, -1),
      (-1, -1, -1)). */
  lemma FaceWithoutSlashesMisread(text: string, a: nat, b: nat, c: nat, material: int)
    requires PlainFace(text, a, b, c)
    ensures FaceGroupAsWritten(text, 0, material) == (IndexGroup(a - 1, b - 1, c - 1, material), 6)
    ensures FaceGroupAsWritten(text, 6, material) == (IndexGroup(-1, -1, -1, material), 6)
  {
    StrtolDigitAfterSpace(text, 0, a);
    StrtolDigitAfterSpace(text, 2, b);
    StrtolDigitAfterSpace(text, 4, c);
    assert SkipSlash(text, 2) == 2 && SkipSlash(text, 4) == 4 && SkipSlash(text, 6) == 6;
    assert Strtol(text, 6) == (0, 6) by {
      assert SkipSpaces(text, 6) == 6 && SignEnd(text, 6) == 6 && Cur(text, 6) == '\0';
    }
  }

  /** The corrected reader gives "f a b c" one position per corner and no
      texture or normal index. */
  lemma FaceWithoutSlashesRead(text: string, a: nat, b: nat, c: nat, material: int)
    requires PlainFace(text, a, b, c)
    ensures FaceGroups(text, 0, material, 3).0 ==
      [IndexGroup(a - 1, -1, -1, material), IndexGroup(b - 1, -1, -1, material), IndexGroup(c - 1, -1, -1, material)]
  {
    var g1 := IndexGroup(a - 1, -1, -1, material);
    var g2 := IndexGroup(b - 1, -1, -1, material);
    var g3 := IndexGroup(c - 1, -1, -1, material);
    StrtolDigitAfterSpace(text, 0, a);
    assert FaceGroup(text, 0, material) == (g1, 2);
    StrtolDigitAfterSpace(text, 2, b);
    assert FaceGroup(text, 2, material) == (g2, 4);
    StrtolDigitAfterSpace(text, 4, c);
    assert FaceGroup(text, 4, material) == (g3, 6);
    assert FaceGroups(text, 0, material, 0) == ([], 0);
    assert FaceGroups(text, 0, material, 1).1 == 2;
    assert FaceGroups(text, 0, material, 1).0 == [g1];
    assert FaceGroups(text, 0, material, 2).1 == 4;
    assert FaceGroups(text, 0, material, 2).0 == [g1, g2];
  }

  /** The start " a/t b" of a face whose corners carry a texture index
      but no second '/', with single-digit, non-zero indices, as in
      "f 1/1 2/2 3/3". */
  predicate TexturedFaceStart(text: string, a: nat, t: nat, b: nat)
  {
    |text| >= 6 && 1 <= a <= 9 && 1 <= t <= 9 && 1 <= b <= 9 &&
    text[0] == ' ' && text[1] == (a + '0' as int) as char && text[2] == '/' &&
    text[3] == (t + '0' as int) as char &&
    text[4] == ' ' && text[5] == (b + '0' as int) as char &&
    (|text| == 6 || text[6] == ' ' || text[6] == '/')
  }

  /** On "f a/t b/..." the reader as written takes the next corner's
      position b as the first corner's normal index: "f 1/1 2/2 3/3" gives
      the first corner (0, 0, 1). */
  lemma FaceWithoutSecondSlashMisread(text: string, a: nat, t: nat, b: nat, material: int)
    requires TexturedFaceStart(text, a, t, b)
    ensures FaceGroupAsWritten(text, 0, material) == (IndexGroup(a - 1, t - 1, b - 1, material), 6)
  {
    StrtolDigitAfterSpace(text, 0, a);
    assert SkipSlash(text, 2) == 3;
    StrtolDigit(text, 3, t);
    assert SkipSlash(text, 4) == 4;
    StrtolDigitAfterSpace(text, 4, b);
  }

  /** The corrected reader stops after the texture index, leaves the
      normal at -1 and the cursor before the next corner. */
  lemma FaceWithoutSecondSlashRead(text: string, a: nat, t: nat, b: nat, material: int)
    requires TexturedFaceStart(text, a, t, b)
    ensures FaceGroup(text, 0, material) == (IndexGroup(a - 1, t - 1, -1, material), 4)
  {
    StrtolDigitAfterSpace(text, 0, a);
    StrtolDigit(text, 3, t);
  }

  // ---------------------------------------------------------------------
  // Meshes (.obj)

  /** The lists `load_mesh` gathers while reading: positions, texture
      coordinates, normals, materials, face corners and the active
      material. */
  datatype ObjState = ObjState(
    positions: seq<Vec3>, texcoords: seq<Vec2>, normals: seq<Vec3>,
    materials: seq<MtlMaterial>, groups: seq<IndexGroup>, active: nat)
  {
    /** Corners come in triangles and refer to existing materials. */
    predicate Valid()
    {
      active < |materials| && |groups| % 3 == 0 &&
      forall k | 0 <= k < |groups| :: 0 <= groups[k].material < |materials|
    }
  }

  /** Before the first line: one default material, named "", active. */
  function InitialObjState(): (st: ObjState)
    ensures st.Valid()
  {
    ObjState([], [], [], [DefaultMaterial("")], [], 0)
  }

  /** The directory of a path, up to and including its last '/'. */
  function DirPrefix(path: string): (r: string)
    requires '/' in path
    ensures r <= path && |r| > 0 && r[|r| - 1] == '/'
    ensures forall k | |r| <= k < |path| :: path[k] != '/'
  {
    if path[|path| - 1] == '/' then path
    else
      assert '/' in path[..|path| - 1] by {
        var k :| 0 <= k < |path| && path[k] == '/';
        assert path[..|path| - 1][k] == '/';
      }
      DirPrefix(path[..|path| - 1])
  }

  /** The index `usemtl name` makes active: the first material so named,
      or the active one when there is none. */
  function UseMaterial(materials: seq<MtlMaterial>, name: string, active: nat): nat
  {
    match FindMaterial(materials, name)
    case Some(i) => i
    case None => active
  }

  /** One OBJ command, `cmd`, whose arguments start at q. The first keyword
      the command is a prefix of wins, in the order v, vn, vt, f, usemtl,
      mtllib. Nothing results when `mtllib` names a file that cannot be
      read. */
  function ObjCommand(text: string, q: nat, cmd: string, st: ObjState, files: map<string, string>,
                      prefix: string, value: string -> real, normalize: Vec3 -> Vec3): (r: Option<(ObjState, nat)>)
    requires q <= |text|
    ensures r.Some? ==> q <= r.value.1 <= |text|
    ensures r.Some? && st.Valid() ==> r.value.0.Valid()
    ensures r.None? ==> prefix + NameAt(text, q).0 !in files
    ensures r.Some? ==> st.materials <= r.value.0.materials && st.groups <= r.value.0.groups
  {
    if cmd <= "v" then
      var v := Strtof3(text, q, value);
      Some((st.(positions := st.positions + [v.0]), v.1))
    else if cmd <= "vn" then
      var v := Strtof3(text, q, value);
      Some((st.(normals := st.normals + [normalize(v.0)]), v.1))
    else if cmd <= "vt" then
      var v := Strtof2(text, q, value);
      Some((st.(texcoords := st.texcoords + [v.0]), v.1))
    else if cmd <= "f" then
      var f := FaceGroups(text, q, st.active, 3);
      Some((st.(groups := st.groups + f.0), f.1))
    else if cmd <= "usemtl" then
      var n := NameAt(text, q);
      Some((st.(active := UseMaterial(st.materials, n.0, st.active)), n.1))
    else if cmd <= "mtllib" then
      var n := NameAt(text, q);
      var path := prefix + n.0;
      if path !in files then None
      else
        var mats := MtlParse(files[path], 0, MtlState(st.materials, false), value).materials;
        LoadMtlKeepsEarlier(files[path], st.materials, value);
        Some((st.(materials := mats), n.1))
    else Some((st, q))
  }

  /** The OBJ loop from cursor p to the terminating NUL. */
  function ObjParse(text: string, p: nat, st: ObjState, files: map<string, string>,
                    prefix: string, value: string -> real, normalize: Vec3 -> Vec3): (r: Option<ObjState>)
    requires p <= |text|
    ensures r.Some? && st.Valid() ==> r.value.Valid()
    decreases |text| - p
  {
    if Cur(text, p) == '\0' then Some(st)
    else
      var s := SkipSpaces(text, p);
      var e := TokenEnd(text, s);
      match ObjCommand(text, e, text[s..e], st, files, prefix, value, normalize)
      case None => None
      case Some(r) => ObjParse(text, LineEnd(text, r.1), r.0, files, prefix, value, normalize)
  }

  /** What `load_mesh` gathers from the file at `objFile`; nothing when it
      or a material library it names cannot be read. */
  function ObjLoad(files: map<string, string>, objFile: string, value: string -> real,
                   normalize: Vec3 -> Vec3): (r: Option<ObjState>)
    requires '/' in objFile
    ensures r.Some? ==> r.value.Valid() && |r.value.groups| % 3 == 0
    ensures objFile !in files ==> r.None?
  {
    if objFile !in files then None
    else ObjParse(files[objFile], 0, InitialObjState(), files, DirPrefix(objFile), value, normalize)
  }

  /** A cursor followed only by white space skips to the end. */
  lemma {:induction false} SkipSpacesToEnd(text: string, p: nat)
    requires p <= |text| && forall k | p <= k < |text| :: IsSpace(text[k])
    ensures SkipSpaces(text, p) == |text|
    decreases |text| - p
  {
    if p < |text| {
      SkipSpacesToEnd(text, p + 1);
    }
  }

  /** White space at the end of an OBJ file (a final newline, say) reads
      as one more command: the empty command, which is a prefix of "v" and
      adds a position (0, 0, 0). */
  lemma BlankTailAddsPosition(text: string, p: nat, st: ObjState, files: map<string, string>,
                              prefix: string, value: string -> real, normalize: Vec3 -> Vec3)
    requires p < |text| && forall k | p <= k < |text| :: IsSpace(text[k])
    ensures ObjParse(text, p, st, files, prefix, value, normalize) ==
      Some(st.(positions := st.positions + [Vec3(0.0, 0.0, 0.0)]))
  {
    SkipSpacesToEnd(text, p);
    var n := |text|;
    assert TokenEnd(text, n) == n;
    assert text[n..n] == [];
    assert Strtof3(text, n, value) == (Vec3(0.0, 0.0, 0.0), n);
    assert LineEnd(text, n) == n;
  }

  /** The same white space at the end of a material file declares one
      more material, named "". */
  lemma BlankTailAddsMaterial(text: string, p: nat, st: MtlState, value: string -> real)
    requires p < |text| && st.Valid() && forall k | p <= k < |text| :: IsSpace(text[k])
    ensures MtlParse(text, p, st, value) == MtlState(st.materials + [DefaultMaterial("")], true)
  {
    SkipSpacesToEnd(text, p);
    var n := |text|;
    assert TokenEnd(text, n) == n;
    assert text[n..n] == [];
    assert NameAt(text, n) == ([], n);
    assert LineEnd(text, n) == n;
  }

  /** One OBJ command, as the body of the `load_mesh` loop runs it. */
  method ObjLine(text: string, q: nat, cmd: string, st: ObjState, files: map<string, string>,
                 prefix: string, value: string -> real, normalize: Vec3 -> Vec3) returns (r: Option<(ObjState, nat)>)
    requires q <= |text|
    ensures r == ObjCommand(text, q, cmd, st, files, prefix, value, normalize)
  {
    if cmd <= "v" {
      var v := Strtof3(text, q, value);
      r := Some((st.(positions := st.positions + [v.0]), v.1));
    } else if cmd <= "vn" {
      var v := Strtof3(text, q, value);
      r := Some((st.(normals := st.normals + [normalize(v.0)]), v.1));
    } else if cmd <= "vt" {
      var v := Strtof2(text, q, value);
      r := Some((st.(texcoords := st.texcoords + [v.0]), v.1));
    } else if cmd <= "f" {
      var face: seq<IndexGroup> := [];
      var p := q;
      for i := 0 to 3
        invariant p <= |text| && (face, p) == FaceGroups(text, q, st.active, i)
      {
        var g := FaceGroup(text, p, st.active);
        face := face + [g.0];
        p := g.1;
      }
      r := Some((st.(groups := st.groups + face), p));
    } else if cmd <= "usemtl" {
      var name, p := ReadString(text, q);
      var active := SelectMaterial(st.materials, name, st.active);
      r := Some((st.(active := active), p));
    } else if cmd <= "mtllib" {
      var name, p := ReadString(text, q);
      var path := prefix + name;
      if path !in files {
        r := None;
      } else {
        var mats := LoadMtl(st.materials, files[path], value);
        r := Some((st.(materials := mats), p));
      }
    } else {
      r := Some((st, q));
    }
  }

  /** The reading loop of `load_mesh`. */
  method ParseObj(text: string, files: map<string, string>, prefix: string,
                  value: string -> real, normalize: Vec3 -> Vec3) returns (r: Option<ObjState>)
    ensures r == ObjParse(text, 0, InitialObjState(), files, prefix, value, normalize)
  {
    var p := 0;
    var st := InitialObjState();
    while Cur(text, p) != '\0'
      invariant p <= |text|
      invariant ObjParse(text, p, st, files, prefix, value, normalize) ==
        ObjParse(text, 0, InitialObjState(), files, prefix, value, normalize)
      decreases |text| - p
    {
      p := SkipWhitespace(text, p);
      var start := p;
      p := ScanToken(text, p);
      var line := ObjLine(text, p, text[start..p], st, files, prefix, value, normalize);
      if line.None? {
        return None;
      }
      st := line.value.0;
      p := SkipLine(text, line.value.1);
    }
    r := Some(st);
  }

  // ---------------------------------------------------------------------
  // Vertices and the shared buffers

  /** The handle `load_mesh` returns: the mesh's vertex and triangle
      counts and where its indices and vertices start in the buffers. */
  datatype Mesh = Mesh(vertexCount: nat, triangleCount: nat, indexOffset: nat, baseVertexOffset: nat)

  datatype Vertex = Vertex(pos: Vec3, normal: Vec3, albedo: Vec4, material: Vec4)

  /** One channel of the emission strength stored per vertex: the emission
      divided by the larger of albedo and emission, at least 0, and 0 where
      the emission is 0 (or where the division has no finite positive
      result). */
  function ScaledEmission(e: real, a: real): real
  {
    if e == 0.0 then 0.0
    else
      var d := Max(a, e);
      if d == 0.0 then 0.0 else Max(e / d, 0.0)
  }

  /** For non-negative emission the stored strength lies in [0, 1]; it is 1
      exactly when the channel emits at least as much as it reflects, and 0
      exactly when it does not emit. */
  lemma ScaledEmissionRange(e: real, a: real)
    requires e >= 0.0
    ensures 0.0 <= ScaledEmission(e, a) <= 1.0
    ensures ScaledEmission(e, a) == 1.0 <==> e > 0.0 && a <= e
    ensures ScaledEmission(e, a) == 0.0 <==> e == 0.0
  {
    if e > 0.0 {
      var d := Max(a, e);
      assert d >= e > 0.0;
      assert e / d <= 1.0 by {
        assert e <= d;
      }
      assert e / d > 0.0;
      if e / d == 1.0 {
        assert e == d;
      }
    }
  }

  /** Vertex attributes of a material: albedo and alpha; roughness,
      metallicness, the largest transmission channel and the largest
      scaled emission channel. */
  function MaterialAttributes(m: MtlMaterial): (r: (Vec4, Vec4))
  {
    var t := m.transmission;
    var se := Vec3(ScaledEmission(m.emission.x, m.albedo.x),
                   ScaledEmission(m.emission.y, m.albedo.y),
                   ScaledEmission(m.emission.z, m.albedo.z));
    (Vec4(m.albedo.x, m.albedo.y, m.albedo.z, m.alpha),
     Vec4(m.roughness, m.metallicness, Max(t.x, Max(t.y, t.z)), Max(se.x, Max(se.y, se.z))))
  }

  /** The vertex a corner stands for; an index outside its list leaves that
      attribute zero. */
  function VertexOf(g: IndexGroup, positions: seq<Vec3>, normals: seq<Vec3>, materials: seq<MtlMaterial>): Vertex
  {
    var zero3 := Vec3(0.0, 0.0, 0.0);
    var zero4 := Vec4(0.0, 0.0, 0.0, 0.0);
    var pos := if 0 <= g.pos < |positions| then positions[g.pos] else zero3;
    var normal := if 0 <= g.normal < |normals| then normals[g.normal] else zero3;
    var attrs := if 0 <= g.material < |materials| then MaterialAttributes(materials[g.material]) else (zero4, zero4);
    Vertex(pos, normal, attrs.0, attrs.1)
  }

  /** Position of the first occurrence of g in s. */
  function FirstIndex(s: seq<IndexGroup>, g: IndexGroup): (r: nat)
    requires g in s
    ensures r < |s| && s[r] == g && forall j | 0 <= j < r :: s[j] != g
  {
    if s[0] == g then 0 else 1 + FirstIndex(s[1..], g)
  }

  /** Appending a new element keeps every earlier first position and
      puts the new one at the end. */
  lemma FirstIndexAppend(s: seq<IndexGroup>, g: IndexGroup)
    requires g !in s
    ensures g in s + [g] && FirstIndex(s + [g], g) == |s|
    ensures forall h | h in s :: h in s + [g] && FirstIndex(s + [g], h) == FirstIndex(s, h)
  {
    var t := s + [g];
    assert t[|s|] == g;
    forall h | h in s
      ensures h in t && FirstIndex(t, h) == FirstIndex(s, h)
    {
      assert t[FirstIndex(s, h)] == h;
    }
  }

  /** The vertex numbering of `load_mesh`'s `ig_to_index` map, as a
      function of the corners: the number each corner gets, and the
      distinct corners in order of first use (vertex v is the corner at
      position v). */
  function Dedup(groups: seq<IndexGroup>): (r: (seq<nat>, seq<IndexGroup>))
    ensures |r.0| == |groups| && |r.1| <= |groups|
  {
    if groups == [] then ([], [])
    else
      var prev := Dedup(groups[..|groups| - 1]);
      var g := groups[|groups| - 1];
      if g in prev.1 then (prev.0 + [FirstIndex(prev.1, g)], prev.1)
      else (prev.0 + [|prev.1|], prev.1 + [g])
  }

  /** Every corner's number names a vertex made from that very corner,
      the vertices are pairwise distinct, and each of them is used by some
      corner. */
  lemma {:induction false} DedupSound(groups: seq<IndexGroup>)
    ensures forall k | 0 <= k < |groups| ::
      Dedup(groups).0[k] < |Dedup(groups).1| && Dedup(groups).1[Dedup(groups).0[k]] == groups[k]
    ensures forall i, j | 0 <= i < j < |Dedup(groups).1| :: Dedup(groups).1[i] != Dedup(groups).1[j]
    ensures forall v | 0 <= v < |Dedup(groups).1| :: v in Dedup(groups).0
  {
    if groups != [] {
      var init := groups[..|groups| - 1];
      DedupSound(init);
      var prev := Dedup(init);
      var r := Dedup(groups);
      var g := groups[|groups| - 1];
      forall k | 0 <= k < |groups|
        ensures r.0[k] < |r.1| && r.1[r.0[k]] == groups[k]
      {
        if k < |init| {
          assert r.0[k] == prev.0[k] && groups[k] == init[k];
        }
      }
      forall v | 0 <= v < |r.1|
        ensures v in r.0
      {
        if v < |prev.1| {
          assert v in prev.0;
          var k :| 0 <= k < |prev.0| && prev.0[k] == v;
          assert r.0[k] == v;
        } else {
          assert r.0[|groups| - 1] == v;
        }
      }
    }
  }

  /** Two corners share a vertex exactly when they are equal. */
  lemma DedupSharesExactlyEqualCorners(groups: seq<IndexGroup>, k: nat, l: nat)
    requires k < |groups| && l < |groups|
    ensures groups[k] == groups[l] <==> Dedup(groups).0[k] == Dedup(groups).0[l]
  {
    DedupSound(groups);
    var r := Dedup(groups);
    if groups[k] == groups[l] {
      assert r.1[r.0[k]] == r.1[r.0[l]];
    }
  }

  /** The index and vertex buffers every mesh of a scene is appended to. */
  class MeshBuffers {
    var indices: seq<nat>
    var pos: seq<Vec3>
    var normal: seq<Vec3>
    var albedo: seq<Vec4>
    var material: seq<Vec4>

    /** The four vertex buffers have one entry per vertex. */
    predicate Valid()
      reads this`pos, this`normal, this`albedo, this`material
    {
      |pos| == |normal| == |albedo| == |material|
    }

    function VertexAt(i: nat): Vertex
      reads this`pos, this`normal, this`albedo, this`material
      requires Valid() && i < |pos|
    {
      Vertex(pos[i], normal[i], albedo[i], material[i])
    }

    constructor()
      ensures Valid() && indices == [] && pos == []
    {
      indices, pos, normal, albedo, material := [], [], [], [], [];
    }

    /** Appends one vertex to the four vertex buffers. */
    method PushVertex(v: Vertex)
      requires Valid()
      modifies this
      ensures Valid() && indices == old(indices)
      ensures pos == old(pos) + [v.pos] && normal == old(normal) + [v.normal]
      ensures albedo == old(albedo) + [v.albedo] && material == old(material) + [v.material]
      ensures VertexAt(|pos| - 1) == v
      ensures forall i | 0 <= i < |old(pos)| :: VertexAt(i) == old(VertexAt(i))
    {
      pos := pos + [v.pos];
      normal := normal + [v.normal];
      albedo := albedo + [v.albedo];
      material := material + [v.material];
    }

    /** From `base` on, the buffers hold one vertex per corner of `uniq`,
        built from the parsed lists. */
    ghost predicate Holds(base: nat, uniq: seq<IndexGroup>, positions: seq<Vec3>, normals: seq<Vec3>,
                          materials: seq<MtlMaterial>)
      reads this`pos, this`normal, this`albedo, this`material
    {
      Valid() && |pos| == base + |uniq| &&
      forall v | 0 <= v < |uniq| :: VertexAt(base + v) == VertexOf(uniq[v], positions, normals, materials)
    }

    /** The de-duplication loop of `load_mesh`: each distinct corner
        becomes one new vertex, in order of first use, and every corner
        appends the number of its vertex to the index buffer. */
    method AppendGroups(groups: seq<IndexGroup>, positions: seq<Vec3>, normals: seq<Vec3>, materials: seq<MtlMaterial>)
      returns (vertexCount: nat)
      requires Valid()
      modifies this
      ensures Valid()
      ensures indices == old(indices) + Dedup(groups).0
      ensures vertexCount == |Dedup(groups).1| && |pos| == |old(pos)| + vertexCount
      ensures forall i | 0 <= i < |old(pos)| :: VertexAt(i) == old(VertexAt(i))
      ensures Holds(|old(pos)|, Dedup(groups).1, positions, normals, materials)
    {
      var base := |pos|;
      var igToIndex: map<IndexGroup, nat> := map[];
      vertexCount := 0;
      ghost var ids: seq<nat> := [];
      ghost var uniq: seq<IndexGroup> := [];
      for i := 0 to |groups|
        invariant Numbered(groups, i, igToIndex, ids, uniq) && |uniq| == vertexCount
        invariant Holds(base, uniq, positions, normals, materials)
        invariant indices == old(indices) + ids
        invariant forall j | 0 <= j < base :: VertexAt(j) == old(VertexAt(j))
      {
        igToIndex, vertexCount, ids, uniq :=
          AddCorner(groups, i, igToIndex, vertexCount, base, ids, uniq, positions, normals, materials);
      }
      assert groups[..|groups|] == groups;
    }

    /** The first i corners are numbered as `Dedup` numbers them, and
        `igToIndex` maps each distinct corner to its number. */
    ghost predicate Numbered(groups: seq<IndexGroup>, i: nat, igToIndex: map<IndexGroup, nat>,
                             ids: seq<nat>, uniq: seq<IndexGroup>)
    {
      i <= |groups| && ids == Dedup(groups[..i]).0 && uniq == Dedup(groups[..i]).1 &&
      (forall g :: g in igToIndex <==> g in uniq) &&
      (forall g | g in igToIndex :: g in uniq && igToIndex[g] == FirstIndex(uniq, g))
    }

    /** One iteration of the de-duplication loop: the corner at i gets its
        number (a new one, with its vertex appended, when it was not seen
        before), and the number is appended to the index buffer. */
    method AddCorner(groups: seq<IndexGroup>, i: nat, igToIndex: map<IndexGroup, nat>, vertexCount: nat,
                     ghost base: nat, ghost ids: seq<nat>, ghost uniq: seq<IndexGroup>,
                     positions: seq<Vec3>, normals: seq<Vec3>, materials: seq<MtlMaterial>)
      returns (igToIndex': map<IndexGroup, nat>, vertexCount': nat, ghost ids': seq<nat>, ghost uniq': seq<IndexGroup>)
      requires i < |groups| && Numbered(groups, i, igToIndex, ids, uniq) && |uniq| == vertexCount
      requires Holds(base, uniq, positions, normals, materials)
      modifies this
      ensures Numbered(groups, i + 1, igToIndex', ids', uniq') && |uniq'| == vertexCount'
      ensures Holds(base, uniq', positions, normals, materials)
      ensures |ids'| == i + 1 && ids'[..i] == ids && indices == old(indices) + [ids'[i]]
      ensures forall j | 0 <= j < base :: VertexAt(j) == old(VertexAt(j))
    {
      assert groups[..i + 1][..i] == groups[..i];
      var ig := groups[i];
      if ig in igToIndex {
        igToIndex', vertexCount', uniq' := igToIndex, vertexCount, uniq;
        indices := indices + [igToIndex[ig]];
        ids' := ids + [igToIndex[ig]];
      } else {
        FirstIndexAppend(uniq, ig);
        igToIndex' := igToIndex[ig := vertexCount];
        PushVertex(VertexOf(ig, positions, normals, materials));
        indices := indices + [vertexCount];
        ids' := ids + [vertexCount];
        uniq' := uniq + [ig];
        vertexCount' := vertexCount + 1;
        forall v | 0 <= v < |uniq'|
          ensures VertexAt(base + v) == VertexOf(uniq'[v], positions, normals, materials)
        {
          if v < |uniq| {
            assert uniq'[v] == uniq[v];
          }
        }
      }
      assert ids'[..i] == ids;
    }
  }

  /** `load_mesh`: reads the mesh at `objFile` (a path with a directory
      part, against which material libraries are resolved) and appends it
      to the buffers. Nothing results, and the buffers are untouched, when
      a file cannot be read: the process ends there. */
  method LoadMesh(mb: MeshBuffers, files: map<string, string>, objFile: string,
                  value: string -> real, normalize: Vec3 -> Vec3) returns (m: Option<Mesh>, ghost parsed: Option<ObjState>)
    requires '/' in objFile && mb.Valid()
    modifies mb
    ensures parsed == ObjLoad(files, objFile, value, normalize)
    ensures mb.Valid()
    ensures m.None? <==> parsed.None?
    ensures m.None? ==> unchanged(mb)
    ensures m.Some? ==>
      m.value.indexOffset == old(|mb.indices|) && m.value.baseVertexOffset == old(|mb.pos|) &&
      m.value.triangleCount * 3 == |parsed.value.groups| &&
      mb.indices == old(mb.indices) + Dedup(parsed.value.groups).0
    ensures m.Some? ==>
      m.value.vertexCount == |Dedup(parsed.value.groups).1| &&
      |mb.pos| == m.value.baseVertexOffset + m.value.vertexCount
    ensures forall i | 0 <= i < old(|mb.pos|) :: mb.VertexAt(i) == old(mb.VertexAt(i))
    ensures m.Some? ==>
      mb.Holds(m.value.baseVertexOffset, Dedup(parsed.value.groups).1,
               parsed.value.positions, parsed.value.normals, parsed.value.materials)
  {
    var indexOffset := |mb.indices|;
    var baseVertexOffset := |mb.pos|;
    var prefix := DirPrefix(objFile);
    if objFile !in files {
      return None, None;
    }
    var st := ParseObj(files[objFile], files, prefix, value, normalize);
    parsed := st;
    if st.None? {
      return None, parsed;
    }
    var groups := st.value.groups;
    var vertexCount := mb.AppendGroups(groups, st.value.positions, st.value.normals, st.value.materials);
    m := Some(Mesh(vertexCount, |groups| / 3, indexOffset, baseVertexOffset));
  }



}
