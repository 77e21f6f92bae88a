/** The device_data record every .benji2 decoder builds, one per channel, and
    the calibration step that attaches a conversion and a signedness to it by
    channel name (SDM26/devices.py and the inline copies in the other
    decoders). */
module Devices {
  import opened Common
  import opened Bytes
  import opened Text

  /** conversion_factor: either a float multiplier or a lambda. Every lambda
      the registries install is affine in the raw value, so an affine map
      stands for all of them. */
  datatype Conversion =
    | Scale(factor: real)                    // value * conversion_factor
    | Affine(slope: real, intercept: real)   // conversion_factor(value)

  /** The constructor's default factor, 1.0. */
  const Unscaled: Conversion := Scale(1.0)

  /** Apply a conversion to a raw integer reading. */
  function Apply(c: Conversion, v: int): real
  {
    match c
    case Scale(f) => v as real * f
    case Affine(a, b) => a * v as real + b
  }

  /** The rate at which the physical value moves per raw count. */
  function Slope(c: Conversion): real
  {
    match c
    case Scale(f) => f
    case Affine(a, _) => a
  }

  /** A conversion with positive slope preserves the order of raw readings,
      one with negative slope reverses it. */
  lemma ApplyMonotone(c: Conversion, v: int, w: int)
    requires v < w
    ensures Slope(c) > 0.0 ==> Apply(c, v) < Apply(c, w)
    ensures Slope(c) < 0.0 ==> Apply(c, v) > Apply(c, w)
  {
    var d := (w - v) as real;
    assert Apply(c, w) == Apply(c, v) + Slope(c) * d;
  }

  /** One channel: its name, its slot in the output row, its width in bytes
      and how its bytes become a value. */
  datatype Device = Device(
    name: string,
    column: nat,
    width: nat,
    conversion: Conversion,
    signed: bool,
    order: ByteOrder)

  /** device_data(name, column_index, byte_size) with the class defaults:
      factor 1.0, unsigned, and the byte order the defining file chose. */
  function NewDevice(name: string, column: nat, width: nat, order: ByteOrder): (d: Device)
    ensures d.conversion == Unscaled && !d.signed
  {
    Device(name, column, width, Unscaled, false, order)
  }

  /** getData: the bytes as an integer in the device's byte order and
      signedness, then the conversion. A short read decodes from the bytes
      present, and an empty one decodes as 0. */
  function GetData(d: Device, data: seq<byte>): (r: real)
    ensures |data| == 0 ==> r == Apply(d.conversion, 0)
  {
    Apply(d.conversion, FromBytes(data, d.order, d.signed))
  }

  /** Decoding a full-width field written by the logger gives back the
      reading it encoded, converted. */
  lemma GetDataOfEncoded(d: Device, v: int)
    requires InRange(v, d.width, d.signed)
    ensures GetData(d, ToBytes(v, d.width, d.order, d.signed)) == Apply(d.conversion, v)
  {
    FromBytesOfToBytes(v, d.width, d.order, d.signed);
  }

  /** With the constructor's defaults getData is the plain unsigned reading. */
  lemma GetDataDefault(name: string, column: nat, width: nat, order: ByteOrder, data: seq<byte>)
    ensures GetData(NewDevice(name, column, width, order), data) == Unsigned(data, order) as real
  {
  }

  /** Each device sits at its own position in the list. */
  predicate Indexed(ds: seq<Device>)
  {
    forall i :: 0 <= i < |ds| ==> ds[i].column == i
  }

  /** create_devices in SDM26/devices.py: device i is the stripped name i,
      with column i and width data_sizes[i], little-endian by default. A
      shorter size list raises IndexError. */
  function CreateDevices(names: seq<string>, sizes: seq<nat>): (r: Result<seq<Device>>)
    ensures r.Failure? <==> |sizes| < |names|
    ensures r.Failure? ==> r.error == IndexError
    ensures r.Success? ==> |r.value| == |names| && Indexed(r.value)
    ensures r.Success? ==> forall i :: 0 <= i < |names| ==>
      r.value[i] == NewDevice(Trim(names[i], IsSpace), i, sizes[i], Little)
  {
    if |sizes| < |names| then Failure(IndexError)
    else Success(seq(|names|, i requires 0 <= i < |names| =>
      NewDevice(Trim(names[i], IsSpace), i, sizes[i], Little)))
  }

  /** The names of a device list, in order. */
  function NamesOf(ds: seq<Device>): (names: seq<string>)
    ensures |names| == |ds| && forall i :: 0 <= i < |ds| ==> names[i] == ds[i].name
  {
    seq(|ds|, i requires 0 <= i < |ds| => ds[i].name)
  }

  /** The widths of a device list, in order. */
  function WidthsOf(ds: seq<Device>): (ws: seq<nat>)
    ensures |ws| == |ds| && forall i :: 0 <= i < |ds| ==> ws[i] == ds[i].width
  {
    seq(|ds|, i requires 0 <= i < |ds| => ds[i].width)
  }

  /** With enough sizes create_devices succeeds; its devices carry the
      stripped names and the first |names| sizes, and building again from
      those names and widths gives the same list: a stripped name strips
      to itself. */
  lemma CreateDevicesRoundTrip(names: seq<string>, sizes: seq<nat>)
    requires |sizes| >= |names|
    ensures var r := CreateDevices(names, sizes);
      r.Success? && Indexed(r.value) &&
      (forall i :: 0 <= i < |names| ==> NamesOf(r.value)[i] == Trim(names[i], IsSpace)) &&
      WidthsOf(r.value) == sizes[..|names|] &&
      CreateDevices(NamesOf(r.value), WidthsOf(r.value)) == r
  {
    var ds := CreateDevices(names, sizes).value;
    var again := CreateDevices(NamesOf(ds), WidthsOf(ds));
    assert again.Success?;
    forall i | 0 <= i < |names|
      ensures again.value[i] == ds[i]
    {
      TrimOfTrimmed(ds[i].name, IsSpace);
    }
    assert again.value == ds;
  }

  /** The inline loop of the other decoders: device_data(deviceList[i], i,
      dataSize[i]) with the file's own default byte order and no strip. */
  function MakeDevices(names: seq<string>, sizes: seq<nat>, order: ByteOrder): (r: Result<seq<Device>>)
    ensures r.Failure? <==> |sizes| < |names|
    ensures r.Failure? ==> r.error == IndexError
    ensures r.Success? ==> |r.value| == |names| && Indexed(r.value)
    ensures r.Success? ==> forall i :: 0 <= i < |names| ==>
      r.value[i] == NewDevice(names[i], i, sizes[i], order)
  {
    if |sizes| < |names| then Failure(IndexError)
    else Success(seq(|names|, i requires 0 <= i < |names| => NewDevice(names[i], i, sizes[i], order)))
  }

  /** The inline loop and create_devices build the same little-endian list
      once the inline loop is given the stripped names; and with enough
      sizes the inline loop's list carries the names as given and the first
      |names| sizes, and rebuilds from them. */
  lemma MakeDevicesRoundTrip(names: seq<string>, sizes: seq<nat>, order: ByteOrder)
    ensures MakeDevices(seq(|names|, i requires 0 <= i < |names| => Trim(names[i], IsSpace)), sizes, Little)
      == CreateDevices(names, sizes)
    ensures |sizes| >= |names| ==>
      var r := MakeDevices(names, sizes, order);
      r.Success? && NamesOf(r.value) == names && WidthsOf(r.value) == sizes[..|names|] &&
      MakeDevices(NamesOf(r.value), WidthsOf(r.value), order) == r
  {
    var stripped := seq(|names|, i requires 0 <= i < |names| => Trim(names[i], IsSpace));
    if |sizes| >= |names| {
      assert MakeDevices(stripped, sizes, Little).value == CreateDevices(names, sizes).value;
      var ds := MakeDevices(names, sizes, order).value;
      assert NamesOf(ds) == names;
      assert MakeDevices(NamesOf(ds), WidthsOf(ds), order).value == ds;
    }
  }

  /** What one case of a registry's match statement does: install a
      conversion (or leave the factor alone) and possibly set signed. */
  datatype Rule = Rule(conversion: Option<Conversion>, makeSigned: bool)

  /** A registry maps a channel name to its case; None is `case _: pass`. */
  type Rules = string -> Option<Rule>

  /** The match statement applied to one device. signed is only ever set to
      True, never reset. */
  function Configure(d: Device, registry: Rules): (e: Device)
    ensures e.name == d.name && e.column == d.column && e.width == d.width && e.order == d.order
    ensures e.signed <==> d.signed || (registry(d.name).Some? && registry(d.name).value.makeSigned)
    ensures registry(d.name).None? ==> e == d
    ensures registry(d.name).Some? && registry(d.name).value.conversion.Some? ==>
      e.conversion == registry(d.name).value.conversion.value
    ensures (registry(d.name).None? || registry(d.name).value.conversion.None?) ==>
      e.conversion == d.conversion
  {
    match registry(d.name)
    case None => d
    case Some(rule) =>
      var conversion := if rule.conversion.Some? then rule.conversion.value else d.conversion;
      d.(conversion := conversion, signed := d.signed || rule.makeSigned)
  }

  /** configure_devices: the match statement over every device, in place. */
  function ConfigureAll(ds: seq<Device>, registry: Rules): (es: seq<Device>)
    ensures |es| == |ds|
    ensures forall i :: 0 <= i < |ds| ==> es[i] == Configure(ds[i], registry)
  {
    seq(|ds|, i requires 0 <= i < |ds| => Configure(ds[i], registry))
  }

  /** configure_devices changes only the conversion and the sign flag: names,
      columns, widths, byte orders, length and order of the list stay. */
  lemma ConfigurePreserves(ds: seq<Device>, registry: Rules)
    ensures var es := ConfigureAll(ds, registry);
      |es| == |ds| &&
      forall i :: 0 <= i < |ds| ==>
        es[i].(conversion := ds[i].conversion, signed := ds[i].signed) == ds[i]
  {
  }

  /** Running the calibration twice is the same as running it once: every
      case assigns constants and only ever sets signed. */
  lemma ConfigureIdempotent(ds: seq<Device>, registry: Rules)
    ensures ConfigureAll(ConfigureAll(ds, registry), registry) == ConfigureAll(ds, registry)
  {
    var once := ConfigureAll(ds, registry);
    forall i | 0 <= i < |ds|
      ensures Configure(once[i], registry) == once[i]
    {
      ConfigureOnceIsFixed(ds[i], registry);
    }
  }

  lemma ConfigureOnceIsFixed(d: Device, registry: Rules)
    ensures Configure(Configure(d, registry), registry) == Configure(d, registry)
  {
  }

  /** Calibration keeps the devices in their own slots. */
  lemma ConfigureKeepsIndexed(ds: seq<Device>, registry: Rules)
    requires Indexed(ds)
    ensures Indexed(ConfigureAll(ds, registry))
  {
  }
}
