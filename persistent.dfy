/**
 * `Storage::Persistent` (src/storage/persistent.cpp): the configuration
 * kept in the 512-byte EEPROM emulation.  The image is a 4-byte identifier
 * field holding `"MF1"` and a NUL, followed by a 508-byte area for the JSON
 * text.  `loadConfig` copies the EEPROM into the in-memory image when the
 * identifier matches; `saveConfig` serialises the settings into the area
 * and writes the image back.  The settings themselves are a key/value map.
 *
 * The EEPROM is a parameter (an array of 512 bytes); `begin`, `commit`
 * and `end` are not modelled.  ArduinoJson's serialiser and parser are not
 * part of this model: `saveConfig` takes the text the serialiser produces,
 * and `loadConfig` takes the key/value pairs the parser yields.
 */
module Storage {
  newtype Byte = b: int | 0 <= b < 256

  newtype Uint16 = n: int | 0 <= n < 0x1_0000

  /** `kEEPROMSize`. */
  const EepromSize: nat := 512
  /** The identifier field `char id[4]`. */
  const IdSize: nat := 4
  /** The JSON area `char jsonString[kEEPROMSize - 4]`. */
  const AreaSize: nat := EepromSize - IdSize
  /** `_STORAGE_CONFIGURATION_START`: where `loadConfig` starts copying. */
  const ConfigurationStart: nat := 3
  /** `_STORAGE_IDENTIFIER`, `"MF1"`. */
  const Identifier: seq<Byte> := [77, 70, 49]

  function Zeros(n: nat): (z: seq<Byte>)
    ensures |z| == n && forall k :: 0 <= k < n ==> z[k] == 0
  {
    seq(n, _ => 0)
  }

  /** `strlen`: the number of bytes before the first NUL, or all of them. */
  function Strlen(s: seq<Byte>): (n: nat)
    ensures n <= |s|
    ensures forall k :: 0 <= k < n ==> s[k] != 0
    ensures n < |s| ==> s[n] == 0
  {
    if |s| == 0 || s[0] == 0 then 0 else 1 + Strlen(s[1..])
  }

  /** `root.printTo(config.jsonString, 508)`: the serialiser keeps at most 507 bytes, for the terminator. */
  function Printed(text: seq<Byte>): seq<Byte>
  {
    if |text| < AreaSize then text else text[..AreaSize - 1]
  }

  /** The JSON area after `memset` and `printTo`: the printed text, then zeros. */
  function Area(text: seq<Byte>): (area: seq<Byte>)
    ensures |area| == AreaSize && area[AreaSize - 1] == 0
    ensures area[..|Printed(text)|] == Printed(text)
  {
    Printed(text) + Zeros(AreaSize - |Printed(text)|)
  }

  /** The area ends in a NUL, so its C string is shorter than the area. */
  lemma AreaTerminated(text: seq<Byte>)
    ensures Strlen(Area(text)) < AreaSize
  {
    assert Area(text)[AreaSize - 1] == 0;
  }

  /** The in-memory image after the serialisation step of `saveConfig`. */
  function Serialised(config: seq<Byte>, text: seq<Byte>): seq<Byte>
    requires |config| == EepromSize
  {
    config[..IdSize] + Area(text)
  }

  /** The size `saveConfig` writes: the identifier field and the JSON text, without its terminator. */
  function SavedSize(config: seq<Byte>): nat
    requires |config| == EepromSize
  {
    IdSize + Strlen(config[IdSize..])
  }

  /** The EEPROM after the write loop of `saveConfig`: the first `SavedSize` bytes of the image, and the old bytes after them. */
  function Saved(image: seq<Byte>, config: seq<Byte>): seq<Byte>
    requires |image| == |config| == EepromSize
  {
    config[..SavedSize(config)] + image[SavedSize(config)..]
  }

  /** The EEPROM after a write loop that also writes the terminator. */
  function SavedTerminated(image: seq<Byte>, config: seq<Byte>): seq<Byte>
    requires |image| == |config| == EepromSize && Strlen(config[IdSize..]) < AreaSize
  {
    config[..SavedSize(config) + 1] + image[SavedSize(config) + 1..]
  }

  /** The in-memory image after the copy step of `loadConfig`: bytes 3 to 511 of the EEPROM if it starts with the identifier. */
  function Loaded(config: seq<Byte>, image: seq<Byte>): seq<Byte>
    requires |image| == |config| == EepromSize
  {
    if image[..ConfigurationStart] == Identifier then config[..ConfigurationStart] + image[ConfigurationStart..] else config
  }

  /** The C string `config.jsonString` that `loadConfig` hands to the parser. */
  function JsonText(config: seq<Byte>): seq<Byte>
    requires |config| == EepromSize
  {
    config[IdSize..IdSize + Strlen(config[IdSize..])]
  }

  /** Text without NUL bytes, as a serialiser of JSON produces. */
  predicate NoNul(text: seq<Byte>)
  {
    forall k :: 0 <= k < |text| ==> text[k] != 0
  }

  /** The length of a C string is where its first NUL is. */
  lemma StrlenAt(s: seq<Byte>, n: nat)
    requires n <= |s| && (forall k :: 0 <= k < n ==> s[k] != 0) && (n < |s| ==> s[n] == 0)
    ensures Strlen(s) == n
  {
  }

  /** After `clear` the identifier is missing, so `loadConfig` copies nothing. */
  lemma ClearedImageNotLoaded(config: seq<Byte>)
    requires |config| == EepromSize
    ensures Loaded(config, Zeros(EepromSize)) == config
  {
    assert Zeros(EepromSize)[0] != Identifier[0];
  }

  /** `loadConfig` never changes the identifier bytes 0 to 2, whatever the EEPROM holds. */
  lemma LoadedKeepsIdentifier(config: seq<Byte>, image: seq<Byte>)
    requires |image| == |config| == EepromSize
    ensures Loaded(config, image)[..ConfigurationStart] == config[..ConfigurationStart]
    ensures image[..ConfigurationStart] == Identifier ==> Loaded(config, image)[ConfigurationStart..] == image[ConfigurationStart..]
  {
  }

  /** The serialisation step leaves the identifier field alone and the JSON area holds the printed text as a C string. */
  lemma SerialisedText(config: seq<Byte>, text: seq<Byte>)
    requires |config| == EepromSize && NoNul(text)
    ensures |Serialised(config, text)| == EepromSize
    ensures Serialised(config, text)[..IdSize] == config[..IdSize]
    ensures JsonText(Serialised(config, text)) == Printed(text)
    ensures Strlen(Serialised(config, text)[IdSize..]) < AreaSize
  {
    var s := Serialised(config, text);
    var p := Printed(text);
    assert s[IdSize..] == Area(text);
    forall k | 0 <= k < |p|
      ensures Area(text)[k] != 0
    {
      assert Area(text)[k] == p[k];
    }
    StrlenAt(Area(text), |p|);
  }

  /**
   * The write loop of `saveConfig` stops before the terminator of the JSON
   * text, so the EEPROM byte after the text keeps whatever it held.  When
   * that byte is not NUL (an older, longer configuration was stored), the
   * text `loadConfig` reads back is longer than the text saved.
   */
  lemma SaveThenLoadAsWritten(image: seq<Byte>, config: seq<Byte>)
    requires |image| == |config| == EepromSize
    requires config[..ConfigurationStart] == Identifier && Strlen(config[IdSize..]) < AreaSize
    requires image[SavedSize(config)] != 0
    ensures JsonText(Loaded(config, Saved(image, config))) != JsonText(config)
  {
    var n := Strlen(config[IdSize..]);
    var saved := Saved(image, config);
    assert saved[..ConfigurationStart] == Identifier;
    var loaded := Loaded(config, saved);
    assert loaded == saved;
    var tail := saved[IdSize..];
    forall k | 0 <= k <= n
      ensures tail[k] != 0
    {
      if k < n {
        assert tail[k] == config[IdSize..][k];
      } else {
        assert tail[k] == image[IdSize + n];
      }
    }
    assert Strlen(tail) > n;
    assert |JsonText(loaded)| > n == |JsonText(config)|;
  }

  /** Writing the terminator as well, `loadConfig` reads back exactly the bytes saved, through the end of the text. */
  lemma SaveThenLoad(image: seq<Byte>, config: seq<Byte>)
    requires |image| == |config| == EepromSize
    requires config[..ConfigurationStart] == Identifier && Strlen(config[IdSize..]) < AreaSize
    ensures Loaded(config, SavedTerminated(image, config))[..SavedSize(config) + 1] == config[..SavedSize(config) + 1]
    ensures JsonText(Loaded(config, SavedTerminated(image, config))) == JsonText(config)
  {
    var n := Strlen(config[IdSize..]);
    var saved := SavedTerminated(image, config);
    assert saved[..ConfigurationStart] == Identifier;
    var loaded := Loaded(config, saved);
    assert loaded == saved;
    forall k | 0 <= k < n
      ensures loaded[IdSize..][k] != 0
    {
      assert loaded[IdSize..][k] == config[IdSize..][k];
    }
    assert loaded[IdSize..][n] == config[IdSize..][n];
    StrlenAt(loaded[IdSize..], n);
  }

  /** Saved with the terminator, the serialised text comes back from the EEPROM, truncated to 507 bytes. */
  lemma SerialisedRoundTrip(image: seq<Byte>, config: seq<Byte>, text: seq<Byte>)
    requires |image| == |config| == EepromSize && config[..ConfigurationStart] == Identifier && NoNul(text)
    ensures var c := Serialised(config, text);
      Strlen(c[IdSize..]) < AreaSize && JsonText(Loaded(c, SavedTerminated(image, c))) == Printed(text)
  {
    SerialisedText(config, text);
    var c := Serialised(config, text);
    assert c[..ConfigurationStart] == config[..IdSize][..ConfigurationStart];
    SaveThenLoad(image, c);
  }

  /** A setting: `root[key] = String(value)` or `root[key] = value` for a `uint16_t`. */
  datatype Value = Text(text: string) | Number(number: Uint16)

  /** `get(key, String&)`: the text stored under the key; ArduinoJson's conversion of anything else is `converted`. */
  function TextOf(root: map<string, Value>, key: string, converted: string): string
  {
    if key in root && root[key].Text? then root[key].text else converted
  }

  /** `get(key, uint16_t&)`: the number stored under the key; ArduinoJson's conversion of anything else is `converted`. */
  function NumberOf(root: map<string, Value>, key: string, converted: Uint16): Uint16
  {
    if key in root && root[key].Number? then root[key].number else converted
  }

  /** `set` then `get` with the same overload yields the value set, and other keys read as before. */
  lemma SetThenGet(root: map<string, Value>, key: string, other: string, text: string, number: Uint16,
                   convertedText: string, convertedNumber: Uint16)
    ensures TextOf(root[key := Text(text)], key, convertedText) == text
    ensures NumberOf(root[key := Number(number)], key, convertedNumber) == number
    ensures other != key ==> TextOf(root[key := Text(text)], other, convertedText) == TextOf(root, other, convertedText)
    ensures other != key ==> NumberOf(root[key := Number(number)], other, convertedNumber) == NumberOf(root, other, convertedNumber)
  {
  }

  /** The settings after `loadConfig` copies each parsed pair, in order, into `root` as text. */
  function Merged(root: map<string, Value>, pairs: seq<(string, string)>): map<string, Value>
    decreases |pairs|
  {
    if pairs == [] then root else Merged(root[pairs[0].0 := Text(pairs[0].1)], pairs[1..])
  }

  /** After the copy, a key no parsed pair names keeps what it had. */
  lemma {:induction false} MergedUntouched(root: map<string, Value>, pairs: seq<(string, string)>, key: string)
    requires forall i :: 0 <= i < |pairs| ==> pairs[i].0 != key
    ensures key in Merged(root, pairs) <==> key in root
    ensures key in root ==> Merged(root, pairs)[key] == root[key]
    decreases |pairs|
  {
    if pairs != [] {
      assert forall j :: 0 <= j < |pairs| - 1 ==> pairs[1..][j] == pairs[j + 1];
      MergedUntouched(root[pairs[0].0 := Text(pairs[0].1)], pairs[1..], key);
    }
  }

  /** After the copy, a key holds the text of the last parsed pair that names it. */
  lemma {:induction false} MergedLast(root: map<string, Value>, pairs: seq<(string, string)>, key: string, i: nat)
    requires i < |pairs| && pairs[i].0 == key
    requires forall j :: i < j < |pairs| ==> pairs[j].0 != key
    ensures key in Merged(root, pairs) && Merged(root, pairs)[key] == Text(pairs[i].1)
    decreases |pairs|
  {
    var next := root[pairs[0].0 := Text(pairs[0].1)];
    assert forall j :: 0 <= j < |pairs| - 1 ==> pairs[1..][j] == pairs[j + 1];
    if i == 0 {
      MergedUntouched(next, pairs[1..], key);
    } else {
      MergedLast(next, pairs[1..], key, i - 1);
    }
  }

  class Persistent {
    /** The JSON settings object `root`. */
    var root: map<string, Value>
    /** `config`: the identifier field and the JSON area, as one 512-byte image. */
    const config: array<Byte>

    /** The identifier bytes of the image never change: `loadConfig` copies from byte 3 on. */
    ghost predicate Valid()
      reads this, config
    {
      config.Length == EepromSize && config[..ConfigurationStart] == Identifier
    }

    /** `config = { "MF1", "" }`: the identifier, its NUL, an empty JSON area; no settings. */
    constructor ()
      ensures Valid() && fresh(config) && root == map[]
      ensures config[..] == Identifier + Zeros(EepromSize - ConfigurationStart)
    {
      root := map[];
      config := new Byte[EepromSize](k => if k == 0 then 77 else if k == 1 then 70 else if k == 2 then 49 else 0);
      new;
      assert config[..] == Identifier + Zeros(EepromSize - ConfigurationStart);
    }

    /** `clear()`: every EEPROM byte becomes 0. */
    static method Clear(eeprom: array<Byte>)
      requires eeprom.Length == EepromSize
      modifies eeprom
      ensures eeprom[..] == Zeros(EepromSize)
    {
      for i := 0 to EepromSize
        invariant forall k :: 0 <= k < i ==> eeprom[k] == 0
      {
        eeprom[i] := 0;
      }
    }

    /**
     * `loadConfig()`: with the identifier in bytes 0 to 2 of the EEPROM,
     * bytes 3 to 511 are copied into the image; then each pair the parser
     * reads from the JSON area is set in `root` as text.
     */
    method LoadConfig(eeprom: array<Byte>, pairs: seq<(string, string)>)
      requires Valid() && eeprom.Length == EepromSize && eeprom != config
      modifies config, this`root
      ensures Valid()
      ensures config[..] == Loaded(old(config[..]), eeprom[..])
      ensures root == Merged(old(root), pairs)
    {
      if eeprom[0] == Identifier[0] && eeprom[1] == Identifier[1] && eeprom[2] == Identifier[2] {
        assert eeprom[..ConfigurationStart] == Identifier;
        CopyIn(eeprom);
        assert config[..ConfigurationStart] == old(config[..ConfigurationStart]);
      }
      assert config[..] == Loaded(old(config[..]), eeprom[..]);
      var i := 0;
      assert pairs[i..] == pairs;
      while i < |pairs|
        invariant 0 <= i <= |pairs|
        invariant Merged(root, pairs[i..]) == Merged(old(root), pairs)
        invariant config[..] == Loaded(old(config[..]), eeprom[..])
      {
        assert pairs[i..][1..] == pairs[i + 1..];
        root := root[pairs[i].0 := Text(pairs[i].1)];
        i := i + 1;
      }
      assert pairs[i..] == [];
    }

    /** The copy loop of `loadConfig`: bytes 3 to 511 of the EEPROM into the image. */
    method CopyIn(eeprom: array<Byte>)
      requires Valid() && eeprom.Length == EepromSize && eeprom != config
      modifies config
      ensures config[..] == old(config[..ConfigurationStart]) + eeprom[ConfigurationStart..]
    {
      for t := ConfigurationStart to EepromSize
        invariant forall k :: 0 <= k < ConfigurationStart ==> config[k] == old(config[k])
        invariant forall k :: ConfigurationStart <= k < t ==> config[k] == eeprom[k]
      {
        config[t] := eeprom[t];
      }
      assert config[..] == old(config[..ConfigurationStart]) + eeprom[ConfigurationStart..];
    }

    /**
     * `saveConfig()`: the JSON area is zeroed and the serialised settings
     * (`text`, at most 507 bytes of it) are printed into it; then the first
     * `4 + strlen(jsonString)` bytes of the image are written to the
     * EEPROM, which keeps its bytes after them.
     */
    method SaveConfig(eeprom: array<Byte>, text: seq<Byte>)
      requires Valid() && eeprom.Length == EepromSize && eeprom != config
      modifies config, eeprom
      ensures Valid()
      ensures config[..] == Serialised(old(config[..]), text)
      ensures eeprom[..] == Saved(old(eeprom[..]), config[..])
    {
      Serialise(text);
      WriteOut(eeprom, IdSize + Strlen(config[IdSize..]));
    }

    /** `saveConfig()` with a write loop that also writes the terminator of the JSON text. */
    method SaveConfigTerminated(eeprom: array<Byte>, text: seq<Byte>)
      requires Valid() && eeprom.Length == EepromSize && eeprom != config
      modifies config, eeprom
      ensures Valid()
      ensures config[..] == Serialised(old(config[..]), text)
      ensures Strlen(config[IdSize..]) < AreaSize
      ensures eeprom[..] == SavedTerminated(old(eeprom[..]), config[..])
    {
      Serialise(text);
      AreaTerminated(text);
      assert config[IdSize..] == Area(text);
      WriteOut(eeprom, IdSize + Strlen(config[IdSize..]) + 1);
    }

    /** The write loop of `saveConfig`: the first `size` bytes of the image into the EEPROM. */
    method WriteOut(eeprom: array<Byte>, size: nat)
      requires Valid() && eeprom.Length == EepromSize && eeprom != config && size <= EepromSize
      modifies eeprom
      ensures eeprom[..] == config[..size] + old(eeprom[..])[size..]
    {
      for j := 0 to size
        invariant forall k :: 0 <= k < j ==> eeprom[k] == config[k]
        invariant forall k :: j <= k < EepromSize ==> eeprom[k] == old(eeprom[k])
      {
        eeprom[j] := config[j];
      }
      assert eeprom[..] == config[..size] + old(eeprom[..])[size..];
    }

    /** `memset(config.jsonString, 0, 508)`, then `root.printTo(config.jsonString, 508)`. */
    method Serialise(text: seq<Byte>)
      requires Valid()
      modifies config
      ensures Valid()
      ensures config[..] == Serialised(old(config[..]), text)
    {
      for i := IdSize to EepromSize
        invariant config[..IdSize] == old(config[..IdSize])
        invariant forall k :: IdSize <= k < i ==> config[k] == 0
      {
        config[i] := 0;
      }
      var printed := Printed(text);
      for k := 0 to |printed|
        invariant config[..IdSize] == old(config[..IdSize])
        invariant forall m :: 0 <= m < k ==> config[IdSize + m] == printed[m]
        invariant forall m :: IdSize + k <= m < EepromSize ==> config[m] == 0
      {
        config[IdSize + k] := printed[k];
      }
      assert config[..IdSize] == old(config[..IdSize]);
      assert config[..] == config[..IdSize] + config[IdSize..];
      assert config[IdSize..] == Area(text);
    }

    /** `get(key, String&)`. */
    method GetText(key: string, converted: string) returns (value: string)
      ensures value == TextOf(root, key, converted)
    {
      value := converted;
      if key in root && root[key].Text? {
        value := root[key].text;
      }
    }

    /** `set(key, const String&)`. */
    method SetText(key: string, value: string)
      modifies this`root
      ensures root == old(root)[key := Text(value)]
    {
      root := root[key := Text(value)];
    }

    /** `get(key, uint16_t&)`. */
    method GetNumber(key: string, converted: Uint16) returns (value: Uint16)
      ensures value == NumberOf(root, key, converted)
    {
      value := converted;
      if key in root && root[key].Number? {
        value := root[key].number;
      }
    }

    /** `set(key, uint16_t)`. */
    method SetNumber(key: string, value: Uint16)
      modifies this`root
      ensures root == old(root)[key := Number(value)]
    {
      root := root[key := Number(value)];
    }
  }
}
