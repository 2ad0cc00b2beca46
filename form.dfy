/** The values behind the scan form (bojata_gui.py:98-199): the
    `v.get().strip() or None` normalisation of `ScanFrame.submit`, the
    required fields, the record handed to the store, and the choices the
    category and drawer menus offer (bojata_gui.py:148, bojata_gui.py:156,
    bojata_db.py:11-22). */
module Form {
  import opened Wrappers

  // ---------------------------------------------------------------------
  // `str.strip()`.

  /** The ASCII characters `str.isspace` accepts: TAB, LF, VT, FF, CR, the
      four separators 0x1C..0x1F and SPACE. */
  predicate IsSpace(c: char) {
    9 <= c as int <= 13 || 28 <= c as int <= 32
  }

  predicate AllSpace(s: string) {
    forall k :: 0 <= k < |s| ==> IsSpace(s[k])
  }

  /** `s.lstrip()`. */
  function TrimStart(s: string): (r: string)
    ensures |r| <= |s| && r == s[|s| - |r|..]
    ensures AllSpace(s[..|s| - |r|])
    ensures r == [] || !IsSpace(r[0])
  {
    if s != [] && IsSpace(s[0]) then
      var r := TrimStart(s[1..]);
      assert s[1..][..|s[1..]| - |r|] == s[1..|s| - |r|];
      r
    else s
  }

  /** `s.rstrip()`. */
  function TrimEnd(s: string): (r: string)
    ensures |r| <= |s| && r == s[..|r|]
    ensures AllSpace(s[|r|..])
    ensures r == [] || !IsSpace(r[|r| - 1])
  {
    if s != [] && IsSpace(s[|s| - 1]) then
      var r := TrimEnd(s[..|s| - 1]);
      assert s[|r|..] == s[..|s| - 1][|r|..] + [s[|s| - 1]];
      SpaceConcat(s[..|s| - 1][|r|..], [s[|s| - 1]]);
      r
    else s
  }

  /** `s.strip()`: nothing is left exactly when `s` is all spaces. */
  function Strip(s: string): (r: string)
    ensures Trimmed(r)
    ensures r == [] <==> AllSpace(s)
  {
    var t := TrimStart(s);
    var m := TrimEnd(t);
    StripFacts(s, t, m);
    m
  }

  lemma StripFacts(s: string, t: string, m: string)
    requires t == TrimStart(s) && m == TrimEnd(t)
    ensures Trimmed(m)
    ensures m == [] <==> AllSpace(s)
  {
    if m == [] {
      AllSpaceLeft(s, t);
    } else {
      assert m[0] == t[0];
      assert t[0] == s[|s| - |t|];
    }
  }

  /** When the right trim leaves nothing, the input held only spaces. */
  lemma AllSpaceLeft(s: string, t: string)
    requires t == TrimStart(s) && TrimEnd(t) == []
    ensures AllSpace(s)
  {
    var lead := s[..|s| - |t|];
    assert t == t[0..];
    assert s == lead + t;
    SpaceConcat(lead, t);
  }

  lemma SpaceConcat(a: string, b: string)
    requires AllSpace(a) && AllSpace(b)
    ensures AllSpace(a + b)
  {
    forall k | 0 <= k < |a + b|
      ensures IsSpace((a + b)[k])
    {
      if k < |a| {
        assert (a + b)[k] == a[k];
      } else {
        assert (a + b)[k] == b[k - |a|];
      }
    }
  }

  /** A text with no space at either end. */
  predicate Trimmed(m: string) {
    m == [] || (!IsSpace(m[0]) && !IsSpace(m[|m| - 1]))
  }

  /** `strip` removes a run of spaces from each end and nothing else: the
      input is the result with space-only text around it. */
  lemma StripParts(s: string) returns (lead: string, trail: string)
    ensures s == lead + Strip(s) + trail
    ensures AllSpace(lead) && AllSpace(trail)
  {
    var t := TrimStart(s);
    var m := TrimEnd(t);
    lead, trail := s[..|s| - |t|], t[|m|..];
    Rejoin(s, |s| - |t|);
    Rejoin(t, |m|);
    Associative(lead, m, trail);
  }

  lemma Rejoin(s: string, n: nat)
    requires n <= |s|
    ensures s == s[..n] + s[n..]
  {
  }

  lemma {:induction false} TrimStartOfSpaces(lead: string, m: string)
    requires AllSpace(lead) && (m == [] || !IsSpace(m[0]))
    ensures TrimStart(lead + m) == m
  {
    if lead != [] {
      assert (lead + m)[1..] == lead[1..] + m;
      TrimStartOfSpaces(lead[1..], m);
    } else {
      assert lead + m == m;
    }
  }

  lemma {:induction false} TrimEndOfSpaces(m: string, trail: string)
    requires AllSpace(trail) && (m == [] || !IsSpace(m[|m| - 1]))
    ensures TrimEnd(m + trail) == m
  {
    if trail != [] {
      var t := trail[..|trail| - 1];
      assert (m + trail)[..|m + trail| - 1] == m + t;
      TrimEndOfSpaces(m, t);
    } else {
      assert m + trail == m;
    }
  }

  /** Conversely, whatever is left between two runs of spaces, with no space
      at its ends, is what `strip` returns. */
  lemma StripUnique(s: string, lead: string, m: string, trail: string)
    requires s == lead + m + trail
    requires AllSpace(lead) && AllSpace(trail) && Trimmed(m)
    ensures Strip(s) == m
  {
    if m == [] {
      assert s == lead + trail;
      SpaceConcat(lead, trail);
      assert s + [] == s;
      TrimStartOfSpaces(s, []);
    } else {
      assert s == lead + (m + trail);
      TrimStartOfSpaces(lead, m + trail);
      TrimEndOfSpaces(m, trail);
    }
  }

  /** Stripping twice strips nothing more. */
  lemma StripIdempotent(s: string)
    ensures Strip(Strip(s)) == Strip(s)
  {
    StripOfTrimmed(Strip(s));
  }

  // ---------------------------------------------------------------------
  // `v.get().strip() or None`.

  /** One input value as it is stored: stripped, and None (NULL) when
      nothing is left. */
  function Normalized(v: string): (r: Option<string>)
    ensures r.None? <==> AllSpace(v)
    ensures r.Some? ==> r.value == Strip(v) && r.value != []
  {
    var m := Strip(v);
    if m == [] then None else Some(m)
  }

  /** The dict comprehension of bojata_gui.py:180-183: the same fields, each
      value normalised. */
  function NormalizeInputs(inputs: map<Field, string>): (values: map<Field, Option<string>>)
    ensures values.Keys == inputs.Keys
    ensures forall f :: f in inputs ==> values[f] == Normalized(inputs[f])
  {
    map f | f in inputs :: Normalized(inputs[f])
  }

  /** An input of spaces only is stored as None; any other input keeps its
      inner text, without the spaces around it. */
  lemma NormalizedMeaning(v: string, lead: string, m: string, trail: string)
    requires v == lead + m + trail && AllSpace(lead) && AllSpace(trail) && Trimmed(m)
    ensures Normalized(v) == if m == [] then None else Some(m)
  {
    StripUnique(v, lead, m, trail);
  }

  /** Normalising a stored value again changes nothing. */
  lemma NormalizedIdempotent(v: string)
    requires Normalized(v).Some?
    ensures Normalized(Normalized(v).value) == Normalized(v)
  {
    StripIdempotent(v);
  }

  /** `"  Ana  "` is stored as `"Ana"`, and `" \t"` as None. */
  lemma NormalizedExamples()
    ensures Normalized("  Ana  ") == Some("Ana")
    ensures Normalized(" \t") == None
  {
    NormalizedMeaning("  Ana  ", "  ", "Ana", "  ");
  }

  // ---------------------------------------------------------------------
  // The fields of the form and the record stored.

  /** The inputs of the scan form, one per key of `self.iv` after
      `reset_ui` (bojata_gui.py:116-171). */
  datatype Field = Hex | Author | Name | Category | Drawer | Location | Comment

  const Fields: set<Field> := {Hex, Author, Name, Category, Drawer, Location, Comment}

  /** `required_fields` (bojata_gui.py:186). */
  const RequiredFields: seq<Field> := [Author]

  /** DEFAULT_LOCATION (bojata_gui.py:18), the initial text of `location`. */
  const DefaultLocation: string := "Kreativni distrikt, Novi Sad"

  /** `bojata_db.Color(**input_values)`: the normalised fields and the
      `datetime` key added at bojata_gui.py:184. */
  datatype Record = Record(values: map<Field, Option<string>>, datetime: nat)

  /** The first required field whose normalised value is None, if any: the
      one the loop of bojata_gui.py:187-190 marks before returning. */
  function FirstMissing(values: map<Field, Option<string>>, required: seq<Field>): (r: Option<nat>)
    requires forall k :: 0 <= k < |required| ==> required[k] in values
    ensures r.Some? ==> r.value < |required| && values[required[r.value]].None?
                        && forall k :: 0 <= k < r.value ==> values[required[k]].Some?
    ensures r.None? <==> forall k :: 0 <= k < |required| ==> values[required[k]].Some?
  {
    if required == [] then None
    else if values[required[0]].None? then Some(0)
    else
      match FirstMissing(values, required[1..])
      case None => None
      case Some(k) => Some(k + 1)
  }

  /** What `submit` makes of the inputs: either the first required field
      left empty, which it marks, or the record it persists. */
  datatype Validation = Missing(field: Field) | Complete(record: Record)

  /** bojata_gui.py:180-192: normalise every input, stamp the clock reading
      `now`, and stop at the first required field that normalised to None. */
  function Validate(inputs: map<Field, string>, now: nat): (v: Validation)
    requires forall k :: 0 <= k < |RequiredFields| ==> RequiredFields[k] in inputs
    ensures v.Missing? ==> v.field in RequiredFields && AllSpace(inputs[v.field])
    ensures v.Complete? <==> forall k :: 0 <= k < |RequiredFields| ==> !AllSpace(inputs[RequiredFields[k]])
    ensures v.Complete? ==> v.record.datetime == now && v.record.values.Keys == inputs.Keys
    ensures v.Complete? ==> forall f :: f in inputs ==> v.record.values[f] == Normalized(inputs[f])
  {
    var values := NormalizeInputs(inputs);
    match FirstMissing(values, RequiredFields)
    case Some(k) => Missing(RequiredFields[k])
    case None => Complete(Record(values, now))
  }

  /** The record is stored exactly when `author` holds something besides
      spaces; otherwise `author` is the field marked. */
  lemma AuthorRequired(inputs: map<Field, string>, now: nat)
    requires Author in inputs
    ensures Validate(inputs, now).Complete? <==> !AllSpace(inputs[Author])
    ensures Validate(inputs, now).Missing? ==> Validate(inputs, now).field == Author
  {
    assert RequiredFields[0] == Author;
  }

  /** The inputs right after `reset_ui` and `on_show_frame`
      (bojata_gui.py:92-95, bojata_gui.py:116-171): every variable empty but
      `location`, which holds DEFAULT_LOCATION, and `hex`, which holds the
      scanned colour. */
  function ShownInputs(hex: string): (inputs: map<Field, string>)
    ensures inputs.Keys == Fields
    ensures inputs[Hex] == hex && inputs[Location] == DefaultLocation
    ensures forall f :: f in Fields && f != Hex && f != Location ==> inputs[f] == ""
  {
    map[Hex := hex, Author := "", Name := "", Category := "", Drawer := "",
        Location := DefaultLocation, Comment := ""]
  }

  /** A freshly shown form cannot be saved: its author is empty. */
  lemma ShownFormMissesAuthor(hex: string, now: nat)
    ensures Validate(ShownInputs(hex), now) == Missing(Author)
  {
    AuthorRequired(ShownInputs(hex), now);
  }

  /** The default location is stored as it is. */
  lemma LocationStored()
    ensures Normalized(DefaultLocation) == Some(DefaultLocation)
  {
    assert Trimmed(DefaultLocation);
    StripOfTrimmed(DefaultLocation);
  }

  /** A text with no space at its ends is left as it is. */
  lemma StripOfTrimmed(m: string)
    requires Trimmed(m)
    ensures Strip(m) == m
  {
    assert m == [] + m + [];
    StripUnique(m, [], m, []);
  }

  // ---------------------------------------------------------------------
  // The menus.

  /** `ColorCategory` (bojata_db.py:11-22). */
  datatype ColorCategory = Yellow | Orange | Red | Pink | LightGreen | DarkGreen
                         | LightBlue | DarkBlue | Brown | Black | Other

  /** The enum member's value, the text the menu shows. */
  function Label(c: ColorCategory): string {
    match c
    case Yellow => "Žuta"
    case Orange => "Narandžasta"
    case Red => "Crvena"
    case Pink => "Roze"
    case LightGreen => "Svetlozelena"
    case DarkGreen => "Tamnozelena"
    case LightBlue => "Svetloplava"
    case DarkBlue => "Tamnoplava"
    case Brown => "Braon"
    case Black => "Crna"
    case Other => "Ostalo"
  }

  /** The members in declaration order, as iterating the enum yields them. */
  const Categories: seq<ColorCategory> :=
    [Yellow, Orange, Red, Pink, LightGreen, DarkGreen, LightBlue, DarkBlue, Brown, Black, Other]

  /** `[c.value for c in bojata_db.ColorCategory]` (bojata_gui.py:148). */
  function CategoryChoices(): (labels: seq<string>)
    ensures |labels| == |Categories|
    ensures forall k :: 0 <= k < |Categories| ==> labels[k] == Label(Categories[k])
  {
    seq(|Categories|, k requires 0 <= k < |Categories| => Label(Categories[k]))
  }

  /** The member whose value is `text` (reference for `Label`). */
  function FromLabel(text: string): (r: Option<ColorCategory>)
    ensures r.Some? ==> Label(r.value) == text
  {
    if text == "Žuta" then Some(Yellow)
    else if text == "Narandžasta" then Some(Orange)
    else if text == "Crvena" then Some(Red)
    else if text == "Roze" then Some(Pink)
    else if text == "Svetlozelena" then Some(LightGreen)
    else if text == "Tamnozelena" then Some(DarkGreen)
    else if text == "Svetloplava" then Some(LightBlue)
    else if text == "Tamnoplava" then Some(DarkBlue)
    else if text == "Braon" then Some(Brown)
    else if text == "Crna" then Some(Black)
    else if text == "Ostalo" then Some(Other)
    else None
  }

  /** Every member is offered, and each one's value reads back to it, so no
      two members share a menu entry. */
  lemma CategoriesComplete(c: ColorCategory)
    ensures c in Categories
    ensures FromLabel(Label(c)) == Some(c)
  {
  }

  /** The menu lists eleven entries, in declaration order. */
  lemma CategoryChoicesOrder()
    ensures CategoryChoices() == ["Žuta", "Narandžasta", "Crvena", "Roze", "Svetlozelena",
                                  "Tamnozelena", "Svetloplava", "Tamnoplava", "Braon", "Crna", "Ostalo"]
  {
  }

  /** DRAWER_COUNT (bojata_gui.py:17). */
  const DrawerCount: nat := 10

  /** `range(1, DRAWER_COUNT+1)` (bojata_gui.py:156). */
  function DrawerChoices(): (ds: seq<nat>)
    ensures |ds| == DrawerCount
    ensures forall k :: 0 <= k < |ds| ==> ds[k] == k + 1
  {
    seq(DrawerCount, k => k + 1)
  }

  /** The drawer menu offers exactly the drawers 1 to 10, each once, in
      increasing order. */
  lemma DrawerChoicesExact(d: nat)
    ensures d in DrawerChoices() <==> 1 <= d <= DrawerCount
  {
    if 1 <= d <= DrawerCount {
      assert DrawerChoices()[d - 1] == d;
    }
  }
}
