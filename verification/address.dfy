/**
 * `formatAddress`: the one-line postal address shown on the contact
 * section. `src/Components/Contact.js` inlines the same formula.
 */
module Address {
  import opened Wrappers
  import opened Text

  /** A field of the address object: a string, or not there at all. */
  datatype Field = Absent | Str(value: string)

  datatype AddressRecord = AddressRecord(street: Field, city: Field, state: Field, zip: Field)

  /** `${field}` in a template literal: a missing field prints as "undefined". */
  function Render(f: Field): string
  {
    if f.Str? then f.value else "undefined"
  }

  /** JavaScript truthiness of the field: a non-empty string. */
  predicate Truthy(f: Field)
  {
    f.Str? && f.value != ""
  }

  /** `${field ? `<prefix>${field}` : ''}`. */
  function Optional(prefix: string, f: Field): string
  {
    if Truthy(f) then prefix + f.value else ""
  }

  /** The untrimmed template: street, then ", city", " state", " zip" for the truthy ones. */
  function Assemble(a: AddressRecord): string
  {
    Render(a.street) + Optional(", ", a.city) + Optional(" ", a.state) + Optional(" ", a.zip)
  }

  /**
   * `formatAddress(address)`: "" for a missing address; otherwise the
   * assembled line with surrounding whitespace removed, which keeps only
   * characters of the fields and the separators.
   */
  function FormatAddress(address: Option<AddressRecord>): (r: string)
    ensures address.None? ==> r == ""
    ensures address.Some? ==> r == Trim(Assemble(address.value))
    ensures IsTrimmed(r)
    ensures address.Some? ==> |r| <= |Assemble(address.value)|
    ensures address.Some? ==> forall c :: c in r ==> c in Assemble(address.value)
  {
    match address
    case None => ""
    case Some(a) =>
      TrimKeepsCharacters(Assemble(a));
      Trim(Assemble(a))
  }

  /** With no truthy city, state or zip the line is the street alone, trimmed. */
  lemma StreetOnly(a: AddressRecord)
    requires !Truthy(a.city) && !Truthy(a.state) && !Truthy(a.zip)
    ensures FormatAddress(Some(a)) == Trim(Render(a.street))
  {
    assert Optional(", ", a.city) == [] && Optional(" ", a.state) == [] && Optional(" ", a.zip) == [];
    assert Assemble(a) == Render(a.street);
  }

  /** A missing street prints as the word "undefined" ahead of the other parts. */
  lemma MissingStreetPrintsUndefined(a: AddressRecord)
    requires a.street.Absent? && !Truthy(a.city) && !Truthy(a.state) && !Truthy(a.zip)
    ensures FormatAddress(Some(a)) == "undefined"
  {
    var u := Render(a.street);
    assert IsTrimmed(u) by {
      assert u == "undefined";
      assert u[0] == 'u' && u[8] == 'd';
    }
    StreetOnly(a);
    TrimOfTrimmed(u);
  }

  /** The field is absent, or a string with no whitespace at either end. */
  predicate Clean(f: Field)
  {
    f.Absent? || IsTrimmed(f.value)
  }

  /**
   * For any choice of present city, state and zip: when the street starts
   * with a non-space and every part has clean ends, trimming removes
   * nothing and the line is exactly the template.
   */
  lemma {:induction false} CleanPartsNeedNoTrim(a: AddressRecord)
    requires a.street.Str? && a.street.value != "" && IsTrimmed(a.street.value)
    requires Clean(a.city) && Clean(a.state) && Clean(a.zip)
    ensures FormatAddress(Some(a)) == Assemble(a)
  {
    var street := a.street.value;
    var head := Render(a.street) + Optional(", ", a.city);
    var mid := head + Optional(" ", a.state);
    var line := mid + Optional(" ", a.zip);
    assert line == Assemble(a);
    assert head[0] == street[0];
    assert mid[0] == street[0];
    assert line[0] == street[0];
    var lastStreet := street[|street| - 1];
    assert !IsSpace(head[|head| - 1]) by {
      if Truthy(a.city) {
        assert head[|head| - 1] == a.city.value[|a.city.value| - 1];
      } else {
        assert head == street;
      }
    }
    assert !IsSpace(mid[|mid| - 1]) by {
      if Truthy(a.state) {
        assert mid[|mid| - 1] == a.state.value[|a.state.value| - 1];
      } else {
        assert mid == head;
      }
    }
    assert !IsSpace(line[|line| - 1]) by {
      if Truthy(a.zip) {
        assert line[|line| - 1] == a.zip.value[|a.zip.value| - 1];
      } else {
        assert line == mid;
      }
    }
    TrimOfTrimmed(line);
  }

  /** A complete address with clean parts prints as "street, city state zip". */
  lemma {:induction false} FullAddress(street: string, city: string, state: string, zip: string)
    requires street != "" && city != "" && state != "" && zip != ""
    requires IsTrimmed(street) && IsTrimmed(city) && IsTrimmed(state) && IsTrimmed(zip)
    ensures FormatAddress(Some(AddressRecord(Str(street), Str(city), Str(state), Str(zip))))
         == street + ", " + city + " " + state + " " + zip
  {
    CleanPartsNeedNoTrim(AddressRecord(Str(street), Str(city), Str(state), Str(zip)));
  }

  /** Street and zip without city or state print as "street zip": no stray comma. */
  lemma {:induction false} StreetAndZip(a: AddressRecord, street: string, zip: string)
    requires a.street == Str(street) && a.zip == Str(zip)
    requires street != "" && zip != "" && IsTrimmed(street) && IsTrimmed(zip)
    requires !Truthy(a.city) && !Truthy(a.state)
    ensures FormatAddress(Some(a)) == street + " " + zip
  {
    assert Assemble(a) == street + " " + zip by {
      assert Render(a.street) + Optional(", ", a.city) + Optional(" ", a.state) == street;
    }
    assert Clean(a.city) && Clean(a.state);
    CleanPartsNeedNoTrim(a);
  }

  /** A blank street with a city leaves the line starting with the comma. */
  lemma {:induction false} BlankStreetKeepsComma(a: AddressRecord)
    requires a.street == Str("") && Truthy(a.city)
    ensures |FormatAddress(Some(a))| > 0 && FormatAddress(Some(a))[0] == ','
  {
    var line := Assemble(a);
    assert line == ", " + a.city.value + Optional(" ", a.state) + Optional(" ", a.zip);
    assert line[0] == ',';
    TrimKeepsHead(line);
  }
}
