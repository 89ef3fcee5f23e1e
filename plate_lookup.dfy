/**
 * Looking a map region's name up in the plate table, as the tooltip formatter
 * and the click handler both do: the name itself first, then, on a miss, the
 * name with one administrative suffix removed.
 */
module PlateLookup {
  import opened Wrappers
  import opened SuffixStrip

  /** `licensePlateData`: region name to plate prefix. It is defined outside the modelled file. */
  type PlateTable = map<string, string>

  /**
   * `licensePlateData[key]` as the handlers test it with `if (!plate)`: a value only
   * counts when the key is present and the string is not empty (the empty string is falsy).
   */
  function Lookup(table: PlateTable, key: string): (r: Option<string>)
    ensures r.Some? <==> key in table && table[key] != ""
    ensures r.Some? ==> r.value == table[key]
  {
    if key in table && table[key] != "" then Some(table[key]) else None
  }

  /** The table key that hit and the plate stored under it. */
  datatype Resolution = Resolution(name: string, plate: string)

  /** Direct lookup, then, only on a miss, one retry with the simple name. */
  function Resolve(table: PlateTable, name: string): (r: Option<Resolution>)
    ensures r.Some? ==> Lookup(table, r.value.name) == Some(r.value.plate)
    ensures r.Some? ==> r.value.name <= name
    ensures r.Some? && r.value.name != name ==> Lookup(table, name).None? && r.value.name == SimpleName(name)
  {
    SimpleNameShape(name);
    match Lookup(table, name)
    case Some(plate) => Some(Resolution(name, plate))
    case None =>
      var simple := SimpleName(name);
      match Lookup(table, simple)
      case Some(plate) => Some(Resolution(simple, plate))
      case None => None
  }

  /** A direct hit wins: the name's own entry is used and the simple name is never consulted. */
  lemma ResolveExactFirst(table: PlateTable, name: string)
    requires name in table && table[name] != ""
    ensures Resolve(table, name) == Some(Resolution(name, table[name]))
  {
  }

  /** Resolution fails exactly when both the name and its simple name miss. */
  lemma ResolveMissIff(table: PlateTable, name: string)
    ensures Resolve(table, name).None? <==> Lookup(table, name).None? && Lookup(table, SimpleName(name)).None?
  {
  }

  /** A resolved name other than the given one is that name with exactly one listed suffix cut off its end. */
  lemma ResolvedNameDropsOneSuffix(table: PlateTable, name: string)
    requires Resolve(table, name).Some? && Resolve(table, name).value.name != name
    ensures exists i :: (0 <= i < |Suffixes| && EndsWith(name, Suffixes[i]) &&
      Resolve(table, name).value.name == name[..|name| - |Suffixes[i]|])
  {
    SimpleNameShape(name);
  }

  /** An empty plate is falsy: resolution behaves exactly as if the key were absent from the table. */
  lemma EmptyPlateIsMiss(table: PlateTable, name: string)
    requires name in table && table[name] == ""
    ensures Resolve(table, name) == Resolve(map k | k in table && k != name :: table[k], name)
  {
  }

  /**
   * A name that misses but ends with one of the suffixes resolves to the entry of the
   * name without that suffix, when there is one: for the table { "北京": p } the name
   * "北京市" resolves to ("北京", p).
   */
  lemma ResolveWithSuffix(table: PlateTable, base: string, i: nat)
    requires i < |Suffixes|
    requires Lookup(table, base + Suffixes[i]).None? && Lookup(table, base).Some?
    ensures Resolve(table, base + Suffixes[i]) == Some(Resolution(base, table[base]))
    ensures Resolve(table, base + Suffixes[i]).value.plate == Resolve(table, base).value.plate
  {
    var name := base + Suffixes[i];
    assert name[|name| - |Suffixes[i]|..] == Suffixes[i];
    SimpleNameRemovesMatched(name, i);
    assert name[..|name| - |Suffixes[i]|] == base;
  }

  /** A name that misses and ends with none of the suffixes does not resolve. */
  lemma ResolveNoSuffixMiss(table: PlateTable, name: string)
    requires Lookup(table, name).None? && HasNoSuffix(name)
    ensures Resolve(table, name).None?
  {
    SimpleNameShape(name);
  }

  lemma BeijingExample(table: PlateTable)
    requires "北京" in table && table["北京"] != "" && "北京市" !in table
    ensures Resolve(table, "北京市") == Some(Resolution("北京", table["北京"]))
  {
    assert "北京市" == "北京" + Suffixes[0];
    ResolveWithSuffix(table, "北京", 0);
  }

  // ---------------------------------------------------------------------------
  // Tooltip formatter.

  /** The tooltip shows the region's own name, with the plate below it when one is found. */
  datatype Tooltip = WithPlate(title: string, plate: string) | TitleOnly(title: string)

  /** What the formatter renders for `params.name`. */
  function TooltipFor(table: PlateTable, name: string): (t: Tooltip)
    ensures t.title == name
    ensures t.WithPlate? <==> Resolve(table, name).Some?
    ensures t.WithPlate? ==> t.plate == Resolve(table, name).value.plate
  {
    var plate := match Lookup(table, name)
      case Some(p) => Some(p)
      case None => Lookup(table, SimpleName(name));
    match plate
    case Some(p) => WithPlate(name, p)
    case None => TitleOnly(name)
  }

  // ---------------------------------------------------------------------------
  // Click handler.

  /** The parts of the click event the handler reads. */
  datatype ClickEvent = ClickEvent(componentType: string, name: string)

  /** The detail view `showModal(cityName, plateNumber)` opens. */
  datatype Modal = Modal(cityName: string, plateNumber: string)

  /**
   * The click handler: for a click on the map series, resolve the name the way the
   * tooltip does and open a modal with the key that hit and its plate; a miss or a
   * click elsewhere opens nothing.
   */
  method OnClick(table: PlateTable, event: ClickEvent) returns (modal: Option<Modal>)
    ensures modal.Some? <==> event.componentType == "series" && Resolve(table, event.name).Some?
    ensures modal.Some? ==> modal.value == Modal(Resolve(table, event.name).value.name, Resolve(table, event.name).value.plate)
    ensures modal.Some? ==> modal.value.plateNumber == TooltipFor(table, event.name).plate
  {
    modal := None;
    if event.componentType == "series" {
      var cityName := event.name;
      var plateNumber := Lookup(table, cityName);
      if plateNumber.None? {
        var simpleName := SimpleName(cityName);
        plateNumber := Lookup(table, simpleName);
        if plateNumber.Some? {
          cityName := simpleName;
        }
      }
      if plateNumber.Some? {
        modal := Some(Modal(cityName, plateNumber.value));
      }
    }
  }
}
