/**
 * Themes: reading one out of arbitrary JSON, and laying one over another.
 */
module Themes {
  import opened Text

  datatype Json =
    | JNull
    | JBool(value: bool)
    | JNumber(finite: bool, number: real)
    | JString(text: string)
    | JArray(items: seq<Json>)
    | JObject(fields: map<string, Json>)

  datatype PerMode = PerMode(light: Option<string>, dark: Option<string>)
  datatype Palette = Palette(series: Option<seq<string>>, colors: map<string, PerMode>)
  datatype Font = Font(family: Option<string>, size: Option<real>)
  datatype Theme = Theme(
    defaultMode: Option<string>, allowUserToggle: Option<bool>, palette: Option<Palette>, font: Option<Font>)

  const PER_MODE_COLOR_KEYS: seq<string> :=
    ["background", "tableHeader", "tableHeaderBackground", "tableBody", "tile", "tileTitle", "mapColor"]

  const EMPTY := Theme(None, None, None, None)

  // ---------- Reading ----------

  /** A property of an object; arrays are objects too, with none of these properties. */
  function Property(j: Json, key: string): Option<Json> {
    if j.JObject? && key in j.fields then Some(j.fields[key]) else None
  }

  function TextOf(j: Option<Json>): Option<string> {
    if j.Some? && j.value.JString? then Some(j.value.text) else None
  }

  predicate ModeName(s: string) {
    s == "light" || s == "dark" || s == "auto"
  }

  function Strings(items: seq<Json>): seq<string> {
    if items == [] then []
    else (if items[0].JString? then [items[0].text] else []) + Strings(items[1..])
  }

  /** A per-mode colour, if it is an object with at least one colour in it. */
  function Color(j: Option<Json>): Option<PerMode> {
    if j.None? || !j.value.JObject? then None
    else
      var out := PerMode(TextOf(Property(j.value, "light")), TextOf(Property(j.value, "dark")));
      if out == PerMode(None, None) then None else Some(out)
  }

  function Colors(keys: seq<string>, j: Json): map<string, PerMode> {
    map key | key in keys && Color(Property(j, key)).Some? :: Color(Property(j, key)).value
  }

  function Series(j: Json): Option<seq<string>> {
    var s := Property(j, "series");
    if s.Some? && s.value.JArray? then Some(Strings(s.value.items)) else None
  }

  predicate ObjectLike(j: Option<Json>) {
    j.Some? && (j.value.JObject? || j.value.JArray?)
  }

  function ReadPalette(j: Option<Json>): Option<Palette> {
    if !ObjectLike(j) then None
    else
      var p := Palette(Series(j.value), Colors(PER_MODE_COLOR_KEYS, j.value));
      if p == Palette(None, map[]) then None else Some(p)
  }

  function ReadFont(j: Option<Json>): Option<Font> {
    if !ObjectLike(j) then None
    else
      var size := Property(j.value, "size");
      var f := Font(TextOf(Property(j.value, "family")),
                    if size.Some? && size.value.JNumber? && size.value.finite then Some(size.value.number) else None);
      if f == Font(None, None) then None else Some(f)
  }

  function ReadTheme(j: Json): Theme {
    var mode, toggle := TextOf(Property(j, "defaultMode")), Property(j, "allowUserToggle");
    Theme(if mode.Some? && ModeName(mode.value) then mode else None,
          if toggle.Some? && toggle.value.JBool? then Some(toggle.value.value) else None,
          ReadPalette(Property(j, "palette")), ReadFont(Property(j, "font")))
  }

  function Sanitized(raw: Option<Json>): Option<Theme> {
    if raw.None? || !raw.value.JObject? || ReadTheme(raw.value) == EMPTY then None else Some(ReadTheme(raw.value))
  }

  method SanitizeColors(keys: seq<string>, palette: Json) returns (colors: map<string, PerMode>)
    ensures colors == Colors(keys, palette)
  {
    colors := map[];
    for i := 0 to |keys|
      invariant colors == Colors(keys[..i], palette)
    {
      var out := Color(Property(palette, keys[i]));
      assert keys[..i + 1] == keys[..i] + [keys[i]];
      if out.Some? {
        colors := colors[keys[i] := out.value];
      }
    }
    assert keys[..|keys|] == keys;
  }

  method SanitizeTheme(raw: Option<Json>) returns (result: Option<Theme>)
    ensures result == Sanitized(raw)
  {
    if raw.None? || !raw.value.JObject? {
      return None;
    }
    var obj := raw.value;
    var theme := EMPTY;
    var mode := Property(obj, "defaultMode");
    if mode.Some? && mode.value.JString? && ModeName(mode.value.text) {
      theme := theme.(defaultMode := Some(mode.value.text));
    }
    var toggle := Property(obj, "allowUserToggle");
    if toggle.Some? && toggle.value.JBool? {
      theme := theme.(allowUserToggle := Some(toggle.value.value));
    }
    var palette := Property(obj, "palette");
    if ObjectLike(palette) {
      var sanitized := Palette(Series(palette.value), map[]);
      var colors := SanitizeColors(PER_MODE_COLOR_KEYS, palette.value);
      sanitized := sanitized.(colors := colors);
      if sanitized != Palette(None, map[]) {
        theme := theme.(palette := Some(sanitized));
      }
    }
    theme := theme.(font := ReadFont(Property(obj, "font")));
    result := if theme == EMPTY then None else Some(theme);
  }

  // ---------- Merging ----------

  function Over<T>(base: Option<T>, override: Option<T>): Option<T> {
    if override.Some? then override else base
  }

  function OverMode(base: PerMode, override: PerMode): PerMode {
    PerMode(Over(base.light, override.light), Over(base.dark, override.dark))
  }

  function OverColors(base: map<string, PerMode>, override: map<string, PerMode>): map<string, PerMode> {
    map key | key in base.Keys + override.Keys ::
      if key !in base then override[key]
      else if key !in override then base[key]
      else OverMode(base[key], override[key])
  }

  function OverPalette(base: Option<Palette>, override: Option<Palette>): Option<Palette> {
    if base.None? then override
    else if override.None? then base
    else Some(Palette(Over(base.value.series, override.value.series),
                      OverColors(base.value.colors, override.value.colors)))
  }

  function OverFont(base: Option<Font>, override: Option<Font>): Option<Font> {
    if base.None? then override
    else if override.None? then base
    else Some(Font(Over(base.value.family, override.value.family), Over(base.value.size, override.value.size)))
  }

  function OverTheme(base: Theme, override: Theme): Theme {
    Theme(Over(base.defaultMode, override.defaultMode), Over(base.allowUserToggle, override.allowUserToggle),
          OverPalette(base.palette, override.palette), OverFont(base.font, override.font))
  }

  function Merged(base: Option<Theme>, override: Option<Theme>): Option<Theme> {
    if base.None? then override
    else if override.None? then base
    else Some(OverTheme(base.value, override.value))
  }

  /** The keys of the colours are those the type has. */
  predicate Typed(t: Option<Theme>) {
    t.Some? && t.value.palette.Some? ==> forall k | k in t.value.palette.value.colors :: k in PER_MODE_COLOR_KEYS
  }

  /** The spread of both, then each key's modes merged. */
  method MergeColors(keys: seq<string>, base: map<string, PerMode>, override: map<string, PerMode>)
    returns (colors: map<string, PerMode>)
    requires forall k | k in base || k in override :: k in keys
    ensures colors == OverColors(base, override)
  {
    colors := base + override;
    for i := 0 to |keys|
      invariant colors.Keys == base.Keys + override.Keys
      invariant forall k | k in colors ::
        colors[k] == if k in keys[..i] then OverColors(base, override)[k] else (base + override)[k]
    {
      var key := keys[i];
      assert keys[..i + 1] == keys[..i] + [key];
      if key in base || key in override {
        var b := if key in base then base[key] else PerMode(None, None);
        var o := if key in override then override[key] else PerMode(None, None);
        colors := colors[key := OverMode(b, o)];
      }
    }
    assert keys[..|keys|] == keys;
  }

  // ---------- A theme, setting by setting ----------

  function SeriesOf(t: Theme): Option<seq<string>> {
    if t.palette.Some? then t.palette.value.series else None
  }

  function ModesOf(t: Theme, key: string): PerMode {
    if t.palette.Some? && key in t.palette.value.colors then t.palette.value.colors[key] else PerMode(None, None)
  }

  function FamilyOf(t: Theme): Option<string> {
    if t.font.Some? then t.font.value.family else None
  }

  function SizeOf(t: Theme): Option<real> {
    if t.font.Some? then t.font.value.size else None
  }

  predicate HasColor(t: Theme, key: string) {
    t.palette.Some? && key in t.palette.value.colors
  }

  /** Setting by setting, the override's where it has one and the base's where it has not. */
  ghost predicate Layered(base: Theme, override: Theme, t: Theme) {
    && t.defaultMode == (if override.defaultMode.Some? then override.defaultMode else base.defaultMode)
    && t.allowUserToggle == (if override.allowUserToggle.Some? then override.allowUserToggle else base.allowUserToggle)
    && SeriesOf(t) == (if SeriesOf(override).Some? then SeriesOf(override) else SeriesOf(base))
    && FamilyOf(t) == (if FamilyOf(override).Some? then FamilyOf(override) else FamilyOf(base))
    && SizeOf(t) == (if SizeOf(override).Some? then SizeOf(override) else SizeOf(base))
    && (forall key ::
          && (HasColor(t, key) <==> HasColor(base, key) || HasColor(override, key))
          && var m, b, o := ModesOf(t, key), ModesOf(base, key), ModesOf(override, key);
             m.light == (if o.light.Some? then o.light else b.light) && m.dark == (if o.dark.Some? then o.dark else b.dark))
    && (t.palette.Some? <==> base.palette.Some? || override.palette.Some?)
    && (t.font.Some? <==> base.font.Some? || override.font.Some?)
  }

  /** That is what merging two themes gives, and all it can give. */
  lemma MergedIsLayered(base: Theme, override: Theme, t: Theme)
    ensures Merged(Some(base), Some(override)) == Some(t) <==> Layered(base, override, t)
  {
    var m := OverTheme(base, override);
    assert Layered(base, override, m);
    if Layered(base, override, t) {
      SameSettings(base, override, m, t);
    }
  }

  lemma SameSettings(base: Theme, override: Theme, s: Theme, t: Theme)
    requires Layered(base, override, s) && Layered(base, override, t)
    ensures s == t
  {
    if s.palette.Some? {
      var p, q := s.palette.value, t.palette.value;
      forall key ensures key in p.colors <==> key in q.colors {
        assert HasColor(s, key) <==> HasColor(t, key);
      }
      forall key | key in p.colors ensures p.colors[key] == q.colors[key] {
        assert ModesOf(s, key) == ModesOf(t, key);
      }
      assert p.colors == q.colors && SeriesOf(s) == SeriesOf(t);
    }
    if s.font.Some? {
      assert FamilyOf(s) == FamilyOf(t) && SizeOf(s) == SizeOf(t);
    }
  }

  method MergeThemes(base: Option<Theme>, override: Option<Theme>) returns (merged: Option<Theme>)
    requires Typed(base) && Typed(override)
    ensures merged == Merged(base, override)
    ensures base.None? ==> merged == override
    ensures override.None? ==> merged == base
    ensures base.Some? && override.Some? ==> merged.Some? && Layered(base.value, override.value, merged.value)
  {
    if base.None? {
      return override;
    }
    if override.None? {
      return base;
    }
    var b, o := base.value, override.value;
    var theme := Theme(Over(b.defaultMode, o.defaultMode), Over(b.allowUserToggle, o.allowUserToggle),
                       Over(b.palette, o.palette), OverFont(b.font, o.font));
    if b.palette.Some? || o.palette.Some? {
      var bp := if b.palette.Some? then b.palette.value else Palette(None, map[]);
      var op := if o.palette.Some? then o.palette.value else Palette(None, map[]);
      var colors := MergeColors(PER_MODE_COLOR_KEYS, bp.colors, op.colors);
      theme := theme.(palette := Some(Palette(Over(bp.series, op.series), colors)));
      OverNothing(bp.colors);
      OverNothing(op.colors);
    }
    merged := Some(theme);
    MergedIsLayered(b, o, theme);
  }

  lemma OverNothing(c: map<string, PerMode>)
    ensures OverColors(c, map[]) == c == OverColors(map[], c)
  {
  }

  // ---------- The algebra ----------

  lemma ColorsAssociative(a: map<string, PerMode>, b: map<string, PerMode>, c: map<string, PerMode>)
    ensures OverColors(OverColors(a, b), c) == OverColors(a, OverColors(b, c))
  {
  }

  /** Layers may be merged in any grouping. */
  lemma MergeAssociative(a: Option<Theme>, b: Option<Theme>, c: Option<Theme>)
    ensures Merged(Merged(a, b), c) == Merged(a, Merged(b, c))
  {
    if a.Some? && b.Some? && c.Some? && a.value.palette.Some? && b.value.palette.Some? && c.value.palette.Some? {
      ColorsAssociative(a.value.palette.value.colors, b.value.palette.value.colors, c.value.palette.value.colors);
    }
  }

  /** No theme is the identity, and a theme over itself is itself. */
  lemma MergeIdentityAndIdempotent(t: Option<Theme>)
    ensures Merged(None, t) == t == Merged(t, None) && Merged(t, t) == t
  {
    if t.Some? && t.value.palette.Some? {
      var colors := t.value.palette.value.colors;
      assert OverColors(colors, colors) == colors;
    }
  }

  // ---------- What is read, setting by setting ----------

  /** The value at the end of a chain of property names, if there is one. */
  function At(j: Json, names: seq<string>): Option<Json>
    decreases |names|
  {
    if names == [] then Some(j)
    else if j.JObject? && names[0] in j.fields then At(j.fields[names[0]], names[1..])
    else None
  }

  function TextAt(j: Json, names: seq<string>): Option<string> {
    match At(j, names)
    case Some(JString(text)) => Some(text)
    case _ => None
  }

  /** Each setting is read if the JSON has a value of its type in its place, whatever stands in the others. */
  ghost predicate ReadFrom(j: Json, t: Theme) {
    && (forall m :: t.defaultMode == Some(m) <==>
          TextAt(j, ["defaultMode"]) == Some(m) && (m == "light" || m == "dark" || m == "auto"))
    && (forall b :: t.allowUserToggle == Some(b) <==> At(j, ["allowUserToggle"]) == Some(JBool(b)))
    && (forall s :: SeriesOf(t) == Some(s) <==>
          exists items :: At(j, ["palette", "series"]) == Some(JArray(items)) && s == Strings(items))
    && (forall key | key in PER_MODE_COLOR_KEYS ::
          ModesOf(t, key) == PerMode(TextAt(j, ["palette", key, "light"]), TextAt(j, ["palette", key, "dark"])))
    && (forall key :: HasColor(t, key) ==> key in PER_MODE_COLOR_KEYS && ModesOf(t, key) != PerMode(None, None))
    && FamilyOf(t) == TextAt(j, ["font", "family"])
    && (forall x :: SizeOf(t) == Some(x) <==> At(j, ["font", "size"]) == Some(JNumber(true, x)))
    && t.palette != Some(Palette(None, map[])) && t.font != Some(Font(None, None))
  }

  lemma AtOne(j: Json, a: string)
    ensures At(j, [a]) == Property(j, a)
  {
    assert [a][1..] == [];
  }

  lemma AtMore(j: Json, a: string, rest: seq<string>)
    ensures At(j, [a] + rest) == if Property(j, a).Some? then At(Property(j, a).value, rest) else None
  {
    assert ([a] + rest)[1..] == rest;
  }

  lemma AtTwo(j: Json, a: string, b: string)
    ensures At(j, [a, b]) == if Property(j, a).Some? then Property(Property(j, a).value, b) else None
  {
    assert [a, b] == [a] + [b];
    AtMore(j, a, [b]);
    if Property(j, a).Some? {
      AtOne(Property(j, a).value, b);
    }
  }

  lemma AtThree(j: Json, a: string, b: string, c: string)
    ensures At(j, [a, b, c])
         == if Property(j, a).Some? && Property(Property(j, a).value, b).Some?
            then Property(Property(Property(j, a).value, b).value, c) else None
  {
    assert [a, b, c] == [a] + [b, c];
    AtMore(j, a, [b, c]);
    if Property(j, a).Some? {
      AtTwo(Property(j, a).value, b, c);
    }
  }

  /** The property b of the property a. */
  function Inner(j: Json, a: string, b: string): Option<Json> {
    if Property(j, a).Some? then Property(Property(j, a).value, b) else None
  }

  lemma ColorsRead(p: Json, key: string)
    requires key in PER_MODE_COLOR_KEYS
    ensures var colors := Colors(PER_MODE_COLOR_KEYS, p);
            (if key in colors then colors[key] else PerMode(None, None)) ==
            PerMode(TextOf(Inner(p, key, "light")), TextOf(Inner(p, key, "dark")))
  {
    var c := Property(p, key);
    if c.Some? && !c.value.JObject? {
      assert Inner(p, key, "light") == None == Inner(p, key, "dark");
    }
  }

  lemma ModesRead(j: Json, key: string)
    requires key in PER_MODE_COLOR_KEYS
    ensures var t := ReadTheme(j);
            && ModesOf(t, key) == PerMode(TextAt(j, ["palette", key, "light"]), TextAt(j, ["palette", key, "dark"]))
            && (HasColor(t, key) ==> ModesOf(t, key) != PerMode(None, None))
  {
    AtThree(j, "palette", key, "light");
    AtThree(j, "palette", key, "dark");
    var p := Property(j, "palette");
    if p.Some? {
      PaletteModes(p.value, key);
      ColorsRead(p.value, key);
    }
  }

  lemma PaletteModes(p: Json, key: string)
    ensures var r, colors := ReadPalette(Some(p)), Colors(PER_MODE_COLOR_KEYS, p);
            var m := if r.Some? && key in r.value.colors then r.value.colors[key] else PerMode(None, None);
            m == if key in colors then colors[key] else PerMode(None, None)
  {
    if !ObjectLike(Some(p)) {
      assert forall k :: Property(p, k).None?;
    }
  }

  lemma ColorsKept(j: Json, key: string)
    requires HasColor(ReadTheme(j), key)
    ensures key in PER_MODE_COLOR_KEYS && ModesOf(ReadTheme(j), key) != PerMode(None, None)
  {
  }

  lemma PlainSettingsRead(j: Json)
    ensures var t := ReadTheme(j);
            && (forall m :: t.defaultMode == Some(m) <==>
                  TextAt(j, ["defaultMode"]) == Some(m) && (m == "light" || m == "dark" || m == "auto"))
            && (forall b :: t.allowUserToggle == Some(b) <==> At(j, ["allowUserToggle"]) == Some(JBool(b)))
  {
    AtOne(j, "defaultMode");
    AtOne(j, "allowUserToggle");
  }

  lemma SeriesRead(j: Json)
    ensures var t := ReadTheme(j);
            forall s :: SeriesOf(t) == Some(s) <==>
              exists items :: At(j, ["palette", "series"]) == Some(JArray(items)) && s == Strings(items)
  {
    AtTwo(j, "palette", "series");
  }

  lemma FontRead(j: Json)
    ensures var t := ReadTheme(j);
            && FamilyOf(t) == TextAt(j, ["font", "family"])
            && (forall x :: SizeOf(t) == Some(x) <==> At(j, ["font", "size"]) == Some(JNumber(true, x)))
            && t.palette != Some(Palette(None, map[])) && t.font != Some(Font(None, None))
  {
    AtTwo(j, "font", "family");
    AtTwo(j, "font", "size");
  }

  /** Reading an object takes every setting that is well formed and no other. */
  lemma ReadThemeReads(j: Json)
    ensures ReadFrom(j, ReadTheme(j))
  {
    var t := ReadTheme(j);
    PlainSettingsRead(j);
    SeriesRead(j);
    FontRead(j);
    forall key | key in PER_MODE_COLOR_KEYS
      ensures ModesOf(t, key) == PerMode(TextAt(j, ["palette", key, "light"]), TextAt(j, ["palette", key, "dark"]))
    {
      ModesRead(j, key);
    }
    forall key ensures HasColor(t, key) ==> key in PER_MODE_COLOR_KEYS && ModesOf(t, key) != PerMode(None, None) {
      if HasColor(t, key) {
        ColorsKept(j, key);
      }
    }
  }

  /** What is no object, or holds no setting, is no theme; anything else is the theme it holds. */
  lemma SanitizedReads(raw: Option<Json>)
    ensures raw.None? || !raw.value.JObject? ==> Sanitized(raw).None?
    ensures Sanitized(raw).Some? ==> ReadFrom(raw.value, Sanitized(raw).value)
    ensures raw.Some? && raw.value.JObject? && Sanitized(raw).None? ==> ReadFrom(raw.value, EMPTY)
  {
    if raw.Some? {
      ReadThemeReads(raw.value);
    }
  }

  /** The strings among a palette's series, in order; anything else in it is passed over. */
  lemma SeriesStrings(before: seq<Json>, item: Json, after: seq<Json>)
    ensures Strings([]) == []
    ensures Strings(before + [item] + after)
         == Strings(before) + (match item case JString(text) => [text] case _ => []) + Strings(after)
  {
    StringsAppend(before + [item], after);
    StringsAppend(before, [item]);
    assert [item][1..] == [];
  }

  lemma {:induction false} StringsAppend(a: seq<Json>, b: seq<Json>)
    ensures Strings(a + b) == Strings(a) + Strings(b)
  {
    if a == [] {
      assert a + b == b;
    } else {
      assert (a + b)[1..] == a[1..] + b;
      StringsAppend(a[1..], b);
    }
  }

  lemma ColorKeysListed(key: string)
    ensures key in PER_MODE_COLOR_KEYS <==>
              || key == "background" || key == "tableHeader" || key == "tableHeaderBackground" || key == "tableBody"
              || key == "tile" || key == "tileTitle" || key == "mapColor"
  {
  }

  // ---------- What a sanitised theme is ----------

  /** Nothing empty is kept, and every value is one the reader accepts. */
  predicate Sane(t: Theme) {
    && t != EMPTY
    && (t.defaultMode.Some? ==> ModeName(t.defaultMode.value))
    && (t.palette.Some? ==>
          && t.palette.value != Palette(None, map[])
          && forall k | k in t.palette.value.colors ::
               k in PER_MODE_COLOR_KEYS && t.palette.value.colors[k] != PerMode(None, None))
    && (t.font.Some? ==> t.font.value != Font(None, None))
  }

  function ModeJson(m: PerMode): Json {
    JObject((if m.light.Some? then map["light" := JString(m.light.value)] else map[])
            + (if m.dark.Some? then map["dark" := JString(m.dark.value)] else map[]))
  }

  function Jsons(ss: seq<string>): seq<Json> {
    if ss == [] then [] else [JString(ss[0])] + Jsons(ss[1..])
  }

  function PaletteJson(p: Palette): Json {
    JObject((map k | k in p.colors :: ModeJson(p.colors[k]))
            + (if p.series.Some? then map["series" := JArray(Jsons(p.series.value))] else map[]))
  }

  function FontJson(f: Font): Json {
    JObject((if f.family.Some? then map["family" := JString(f.family.value)] else map[])
            + (if f.size.Some? then map["size" := JNumber(true, f.size.value)] else map[]))
  }

  function ThemeJson(t: Theme): Json {
    JObject((if t.defaultMode.Some? then map["defaultMode" := JString(t.defaultMode.value)] else map[])
            + (if t.allowUserToggle.Some? then map["allowUserToggle" := JBool(t.allowUserToggle.value)] else map[])
            + (if t.palette.Some? then map["palette" := PaletteJson(t.palette.value)] else map[])
            + (if t.font.Some? then map["font" := FontJson(t.font.value)] else map[]))
  }

  lemma SanitizedIsSane(raw: Option<Json>)
    ensures Sanitized(raw).Some? ==> Sane(Sanitized(raw).value)
  {
  }

  lemma MergeKeepsSane(a: Theme, b: Theme)
    requires Sane(a) && Sane(b)
    ensures Sane(OverTheme(a, b))
  {
  }

  lemma {:induction false} StringsBack(ss: seq<string>)
    ensures Strings(Jsons(ss)) == ss
  {
    if ss != [] {
      StringsBack(ss[1..]);
      assert Jsons(ss)[1..] == Jsons(ss[1..]);
    }
  }

  lemma ColorBack(m: PerMode)
    requires m != PerMode(None, None)
    ensures Color(Some(ModeJson(m))) == Some(m)
  {
  }

  lemma ColorsBack(keys: seq<string>, p: Palette)
    requires "series" !in keys
    requires forall k | k in p.colors :: k in keys && p.colors[k] != PerMode(None, None)
    ensures Colors(keys, PaletteJson(p)) == p.colors
  {
    forall k | k in keys
      ensures Color(Property(PaletteJson(p), k)) == if k in p.colors then Some(p.colors[k]) else None
    {
      if k in p.colors {
        ColorBack(p.colors[k]);
      }
    }
  }

  lemma SeriesBack(p: Palette)
    requires "series" !in p.colors
    ensures Series(PaletteJson(p)) == p.series
  {
    if p.series.Some? {
      StringsBack(p.series.value);
    }
  }

  lemma SeriesIsNoColor()
    ensures "series" !in PER_MODE_COLOR_KEYS
  {
  }

  lemma PaletteBack(p: Palette)
    requires p != Palette(None, map[])
    requires forall k | k in p.colors :: k in PER_MODE_COLOR_KEYS && p.colors[k] != PerMode(None, None)
    ensures ReadPalette(Some(PaletteJson(p))) == Some(p)
  {
    SeriesIsNoColor();
    ColorsBack(PER_MODE_COLOR_KEYS, p);
    SeriesBack(p);
  }

  lemma FontBack(f: Font)
    requires f != Font(None, None)
    ensures ReadFont(Some(FontJson(f))) == Some(f)
  {
  }

  lemma ThemeFields(t: Theme)
    ensures var j := ThemeJson(t);
            && Property(j, "defaultMode") == (if t.defaultMode.Some? then Some(JString(t.defaultMode.value)) else None)
            && Property(j, "allowUserToggle")
               == (if t.allowUserToggle.Some? then Some(JBool(t.allowUserToggle.value)) else None)
            && Property(j, "palette") == (if t.palette.Some? then Some(PaletteJson(t.palette.value)) else None)
            && Property(j, "font") == (if t.font.Some? then Some(FontJson(t.font.value)) else None)
  {
  }

  /** A sane theme written as JSON reads back as it was. */
  lemma SaneReadsBack(t: Theme)
    requires Sane(t)
    ensures Sanitized(Some(ThemeJson(t))) == Some(t)
  {
    ThemeFields(t);
    if t.palette.Some? {
      PaletteBack(t.palette.value);
    }
    if t.font.Some? {
      FontBack(t.font.value);
    }
    assert ReadTheme(ThemeJson(t)) == t;
  }

  /** Sanitising what was sanitised changes nothing, for every JSON value. */
  lemma SanitizeIdempotent(raw: Option<Json>)
    requires Sanitized(raw).Some?
    ensures Sanitized(Some(ThemeJson(Sanitized(raw).value))) == Sanitized(raw)
  {
    SanitizedIsSane(raw);
    SaneReadsBack(Sanitized(raw).value);
  }

  /** Sanitising the merge of two sanitised themes changes nothing. */
  lemma MergeOfSanitized(a: Option<Json>, b: Option<Json>)
    requires Merged(Sanitized(a), Sanitized(b)).Some?
    ensures Sanitized(Some(ThemeJson(Merged(Sanitized(a), Sanitized(b)).value))) == Merged(Sanitized(a), Sanitized(b))
  {
    SanitizedIsSane(a);
    SanitizedIsSane(b);
    if Sanitized(a).Some? && Sanitized(b).Some? {
      MergeKeepsSane(Sanitized(a).value, Sanitized(b).value);
    }
    SaneReadsBack(Merged(Sanitized(a), Sanitized(b)).value);
  }
}
