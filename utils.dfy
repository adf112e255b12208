/**
 * route_optimizer/utils.py (duplicated in route_optimizer.py): duration
 * formatting, fuel cost, and the Google Maps viewer URL built from
 * percent-encoded addresses.
 */
module Utils {
  import opened Wrappers
  import opened Text

  // ---------------------------------------------------------------------------
  // format_duration
  // ---------------------------------------------------------------------------

  /**
   * Hours and minutes of a duration: `seconds // 3600` and
   * `(seconds % 3600) // 60`. Python floors, which for the positive divisors
   * here is what Dafny's `/` and `%` do, negative durations included.
   * Seconds are truncated, and hours do not wrap at 24.
   */
  function DurationFields(seconds: int): (f: (int, int))
    ensures 0 <= f.1 < 60
    ensures f.0 * 3600 + f.1 * 60 <= seconds < f.0 * 3600 + f.1 * 60 + 60
  {
    (seconds / 3600, (seconds % 3600) / 60)
  }

  /** The two fields above are the only ones with that property. */
  lemma DurationFieldsUnique(seconds: int, h: int, m: int)
    requires 0 <= m < 60
    requires h * 3600 + m * 60 <= seconds < h * 3600 + m * 60 + 60
    ensures DurationFields(seconds) == (h, m)
  {
  }

  /** `format_duration`: `f"{hours:02d}:{minutes:02d}"`. A non-negative
    * duration's text reads back as its hours and minutes. */
  function FormatDuration(seconds: int): (s: string)
    ensures seconds >= 0 ==>
              |s| >= 5 && s[|s| - 3] == ':' &&
              IsDigits(s[..|s| - 3]) && IsDigits(s[|s| - 2..]) &&
              ParseNat(s[..|s| - 3]) == seconds / 3600 &&
              ParseNat(s[|s| - 2..]) == (seconds % 3600) / 60
    ensures seconds >= 0 ==> |s| == 5 || s[0] != '0'
  {
    var (hours, minutes) := DurationFields(seconds);
    ClockFields(hours, minutes);
    Pad2(hours) + ":" + Pad2(minutes)
  }

  /** `<hh>:<mm>` for non-negative hours and minutes below 100: both fields
    * read back, and the hours have no leading zero beyond the padding. */
  lemma ClockFields(h: int, m: int)
    ensures h >= 0 && 0 <= m < 100 ==>
              var s := Pad2(h) + ":" + Pad2(m);
              |s| >= 5 && s[|s| - 3] == ':' &&
              IsDigits(s[..|s| - 3]) && IsDigits(s[|s| - 2..]) &&
              ParseNat(s[..|s| - 3]) == h && ParseNat(s[|s| - 2..]) == m &&
              (|s| == 5 || s[0] != '0')
  {
    if h >= 0 && 0 <= m < 100 {
      ClockText(Pad2(h), Pad2(m));
    }
  }

  /** Where the two fields of `<hh>:<mm>` sit in the text. */
  lemma ClockText(hh: string, mm: string)
    requires |hh| >= 2 && |mm| == 2
    ensures var s := hh + ":" + mm;
            |s| == |hh| + 3 && s[|s| - 3] == ':' && s[0] == hh[0] &&
            s[..|s| - 3] == hh && s[|s| - 2..] == mm
  {
    var s := hh + ":" + mm;
    assert s[..|hh|] == hh;
    assert s[0] == s[..|hh|][0];
  }

  /** 5400 s is an hour and a half. */
  lemma FormatDurationHourAndHalf()
    ensures FormatDuration(5400) == "01:30"
  {
    assert DurationFields(5400) == (1, 30);
    assert Pad2(1) == "01" && Pad2(30) == "30";
  }

  /** 90000 s is 25 hours: hours do not roll over at 24. */
  lemma FormatDurationNoDayRollover()
    ensures FormatDuration(90000) == "25:00"
  {
    assert DurationFields(90000) == (25, 0);
    assert Pad2(25) == "25" && Pad2(0) == "00";
  }

  /** 119 s is one minute: the leftover seconds are dropped, not rounded. */
  lemma FormatDurationTruncates()
    ensures FormatDuration(119) == "00:01"
  {
    assert DurationFields(119) == (0, 1);
    assert Pad2(0) == "00" && Pad2(1) == "01";
  }

  // ---------------------------------------------------------------------------
  // calculate_fuel_cost
  // ---------------------------------------------------------------------------

  /** Litres per 100 km of a small urban delivery truck. */
  const FuelConsumptionLPer100Km: real := 8.5
  /** Diesel price in EUR per litre. */
  const FuelPriceEurPerL: real := 1.50

  /** Litres burnt over a distance in metres. */
  function FuelLiters(distanceM: int): real
  {
    (distanceM as real / 1000.0 / 100.0) * FuelConsumptionLPer100Km
  }

  /** `calculate_fuel_cost`: EUR for a distance in metres, over exact reals:
    * 0.0001275 EUR per metre. */
  function FuelCost(distanceM: int): (cost: real)
    ensures cost == distanceM as real * 0.0001275
  {
    FuelLiters(distanceM) * FuelPriceEurPerL
  }

  /** The cost is linear in the distance: zero at zero, additive, monotone. */
  lemma FuelCostLinear(a: int, b: int)
    ensures FuelCost(0) == 0.0
    ensures FuelCost(a + b) == FuelCost(a) + FuelCost(b)
    ensures a <= b ==> FuelCost(a) <= FuelCost(b)
  {
  }

  /** 10 km at 8.5 L/100km and 1.50 EUR/L: 0.85 L, 1.275 EUR. */
  lemma FuelCostExample()
    ensures FuelLiters(10000) == 0.85
    ensures FuelCost(10000) == 1.275
  {
  }

  // ---------------------------------------------------------------------------
  // urllib.parse.quote(s) with its default safe='/'
  // ---------------------------------------------------------------------------

  /** Characters `quote` never encodes: ASCII letters, digits and `_.-~`. */
  predicate AlwaysSafe(c: char)
  {
    ('A' <= c <= 'Z') || ('a' <= c <= 'z') || ('0' <= c <= '9') ||
    c == '_' || c == '.' || c == '-' || c == '~'
  }

  /** Characters `quote(s)` leaves as they are: the always-safe ones and `/`. */
  predicate KeptByQuote(c: char)
  {
    AlwaysSafe(c) || c == '/'
  }

  /** Characters that can appear in `quote`'s output. */
  predicate UrlChar(c: char)
  {
    KeptByQuote(c) || c == '%'
  }

  /** The UTF-8 encoding of one code point, as byte values. */
  function Utf8(c: char): (bytes: seq<int>)
    ensures 1 <= |bytes| <= 4
    ensures forall i :: 0 <= i < |bytes| ==> 0 <= bytes[i] < 256
    ensures (c as int < 128) <==> bytes == [c as int]
    ensures c as int >= 128 ==> forall i :: 0 <= i < |bytes| ==> bytes[i] >= 128
  {
    var cp := c as int;
    if cp < 0x80 then [cp]
    else if cp < 0x800 then [0xC0 + cp / 64, 0x80 + cp % 64]
    else if cp < 0x10000 then [0xE0 + cp / 4096, 0x80 + (cp / 64) % 64, 0x80 + cp % 64]
    else [0xF0 + cp / 262144, 0x80 + (cp / 4096) % 64, 0x80 + (cp / 64) % 64, 0x80 + cp % 64]
  }

  /** An upper-case hexadecimal digit. */
  function HexDigit(d: int): (c: char)
    requires 0 <= d < 16
    ensures AlwaysSafe(c)
  {
    "0123456789ABCDEF"[d]
  }

  /** One byte: kept when it is a safe ASCII character, else `%XX`. */
  function QuoteByte(b: int): (s: string)
    requires 0 <= b < 256
    ensures forall i :: 0 <= i < |s| ==> UrlChar(s[i])
  {
    if b < 128 && KeptByQuote(b as char) then [b as char]
    else ['%', HexDigit(b / 16), HexDigit(b % 16)]
  }

  function QuoteBytes(bytes: seq<int>): (s: string)
    requires forall i :: 0 <= i < |bytes| ==> 0 <= bytes[i] < 256
    ensures forall i :: 0 <= i < |s| ==> UrlChar(s[i])
    decreases |bytes|
  {
    if |bytes| == 0 then ""
    else QuoteByte(bytes[0]) + QuoteBytes(bytes[1..])
  }

  /** A kept character is written as itself. */
  lemma QuoteKeptChar(c: char)
    ensures KeptByQuote(c) ==> QuoteBytes(Utf8(c)) == [c]
  {
    if KeptByQuote(c) {
      var b := c as int;
      assert Utf8(c) == [b];
      assert QuoteBytes([b]) == QuoteByte(b) + QuoteBytes([]);
      assert b as char == c;
    }
  }

  /**
   * `quote(s)`: the UTF-8 bytes of `s`, each safe byte kept and every other one
   * written `%XX`. The result holds no `&`, `=`, `|` or space, and text made
   * only of kept characters comes back unchanged.
   */
  function Quote(s: string): (r: string)
    ensures forall i :: 0 <= i < |r| ==> UrlChar(r[i])
    ensures (forall i :: 0 <= i < |s| ==> KeptByQuote(s[i])) ==> r == s
    decreases |s|
  {
    if |s| == 0 then ""
    else
      var head := QuoteBytes(Utf8(s[0]));
      QuoteKeptChar(s[0]);
      assert s == [s[0]] + s[1..];
      head + Quote(s[1..])
  }

  /** Quotes every address, in order. */
  function QuoteAll(xs: seq<string>): (ys: seq<string>)
    ensures |ys| == |xs|
    ensures forall i :: 0 <= i < |xs| ==> ys[i] == Quote(xs[i])
    decreases |xs|
  {
    if |xs| == 0 then [] else QuoteAll(xs[..|xs| - 1]) + [Quote(xs[|xs| - 1])]
  }

  // ---------------------------------------------------------------------------
  // generate_google_maps_url
  // ---------------------------------------------------------------------------

  const MapsBaseUrl := "https://www.google.com/maps/dir/?api=1"

  /** The `&waypoints=` part: present only when there are addresses between
    * the first and the last. */
  function WaypointsSuffix(addresses: seq<string>): string
  {
    if |addresses| > 2 then "&waypoints=" + Join('|', QuoteAll(addresses[1..|addresses| - 1]))
    else ""
  }

  /**
   * `generate_google_maps_url(route_info)` for `route_info['addresses']`:
   * `None` for fewer than two addresses; otherwise the base URL with the
   * quoted first address as origin, the quoted last one as destination,
   * driving mode, and the quoted middle addresses pipe-joined in order.
   */
  method GoogleMapsUrl(addresses: seq<string>) returns (url: Option<string>)
    ensures url.None? <==> |addresses| < 2
    ensures |addresses| >= 2 ==>
              url.value == MapsBaseUrl + "&origin=" + Quote(addresses[0]) +
                           "&destination=" + Quote(addresses[|addresses| - 1]) +
                           "&travelmode=driving" + WaypointsSuffix(addresses)
  {
    if |addresses| < 2 {
      return None;
    }
    var origin := Quote(addresses[0]);
    var destination := Quote(addresses[|addresses| - 1]);
    var waypoints: seq<string> := [];
    if |addresses| > 2 {
      waypoints := QuoteMiddle(addresses);
    }
    var u := MapsBaseUrl + "&origin=" + origin + "&destination=" + destination + "&travelmode=driving";
    if |waypoints| > 0 {
      u := u + "&waypoints=" + Join('|', waypoints);
    }
    url := Some(u);
  }

  /** The loop that quotes the addresses between the first and the last. */
  method QuoteMiddle(addresses: seq<string>) returns (waypoints: seq<string>)
    requires |addresses| > 2
    ensures waypoints == QuoteAll(addresses[1..|addresses| - 1]) && |waypoints| > 0
  {
    waypoints := [];
    for i := 1 to |addresses| - 1
      invariant waypoints == QuoteAll(addresses[1..i])
    {
      assert addresses[1..i + 1] == addresses[1..i] + [addresses[i]];
      waypoints := waypoints + [Quote(addresses[i])];
    }
  }

  /** The waypoints parameter splits back on `|` into exactly the quoted middle
    * addresses, in route order: no quoted address contains a `|`. */
  lemma WaypointsParamSplitsBack(addresses: seq<string>)
    requires |addresses| > 2
    ensures var mid := QuoteAll(addresses[1..|addresses| - 1]);
            |mid| == |addresses| - 2 &&
            Split('|', Join('|', mid)) == mid &&
            forall i :: 0 <= i < |mid| ==> mid[i] == Quote(addresses[i + 1])
  {
    var mid := QuoteAll(addresses[1..|addresses| - 1]);
    assert FreeOf('|', mid);
    SplitJoin('|', mid);
  }
}
