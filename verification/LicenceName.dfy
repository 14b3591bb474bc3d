/**
  Licences carried in a file name: `gen_name` prints one, `get_custom_server_from_string` reads it.

  A licence is printed as reversed base64url of its JSON and put behind `--` or `-licensed-` in the
  name of an executable; the reader rewrites, splits and tries every piece. JSON and signatures are
  parameters: `parse` and `verify` of a `Codec`.
*/
module LicenceName {
  import opened Prelude
  import opened Base64Url
  import opened Text

  datatype CustomServer = CustomServer(key: string, host: string, api: string, relay: string)

  datatype Codec = Codec(parse: seq<Byte> -> Option<CustomServer>, verify: seq<Byte> -> Option<seq<Byte>>)

  /** `gen_name`, after serialisation. */
  function GenName(json: seq<Byte>): string {
    Reverse(Encode(json))
  }

  /** `get_custom_server_from_config_string`. */
  function FromConfigString(k: Codec, s: string): Option<CustomServer> {
    var reversed := Reverse(s);
    var data := if Decode(reversed).Some? then Decode(reversed) else DecodePadded(reversed);
    if data.None? then None else FromBytes(k, data.value)
  }

  function FromBytes(k: Codec, bytes: seq<Byte>): Option<CustomServer> {
    if k.parse(bytes).Some? then k.parse(bytes)
    else
      match k.verify(bytes)
      case None => None
      case Some(signed) => k.parse(signed)
  }

  // ---------------------------------------------------------------------------------------------
  // The licence branch

  const LICENSED_1: string := "-licensed-"
  const LICENSED_2: string := "-licensed--"
  const LICENSED_3: string := "-licensed---"

  function Rewrite(s: string): string {
    Replace(Replace(Replace(s, LICENSED_3, "--"), LICENSED_2, "--"), LICENSED_1, "--")
  }

  function FirstOf(k: Codec, pieces: seq<string>): Option<CustomServer> {
    if pieces == [] then None
    else if FromConfigString(k, Trim(pieces[0])).Some? then FromConfigString(k, Trim(pieces[0]))
    else FirstOf(k, pieces[1..])
  }

  /** One piece between separators: as it is, or cut at parentheses. */
  function FromPiece(k: Codec, s: string): Option<CustomServer> {
    if FromConfigString(k, Trim(s)).Some? then FromConfigString(k, Trim(s))
    else if '(' in s then FirstOf(k, Split(s, "("))
    else None
  }

  function FromPieces(k: Codec, pieces: seq<string>): Option<CustomServer> {
    if pieces == [] then None
    else if FromPiece(k, pieces[0]).Some? then FromPiece(k, pieces[0])
    else FromPieces(k, pieces[1..])
  }

  function FromLicensed(k: Codec, s: string): Option<CustomServer> {
    FromPieces(k, Split(Rewrite(s), "--"))
  }

  // ---------------------------------------------------------------------------------------------
  // The host= branch

  function LastValue(parts: seq<string>, tag: string): string {
    if parts == [] then ""
    else
      var last := parts[|parts| - 1];
      if StartsWith(Lower(last), tag) then last[|tag|..] else LastValue(parts[..|parts| - 1], tag)
  }

  function FirstIndex(s: string, p: string): nat
    requires Contains(s, p)
    ensures OccursAt(s, p, FirstIndex(s, p))
  {
    if OccursAt(s, p, 0) then 0
    else
      assert |s| > 0;
      ContainsInRest(s, p);
      TailOccurs(s, p, FirstIndex(s[1..], p));
      FirstIndex(s[1..], p) + 1
  }

  function FromKeyValues(s: string): CustomServer
    requires Contains(Lower(s), "host=")
  {
    var parts := Split(s[FirstIndex(Lower(s), "host=")..], ",");
    CustomServer(LastValue(parts, "key="), LastValue(parts, "host="), LastValue(parts, "api="), LastValue(parts, "relay="))
  }

  function StripExe(s: string): string {
    if EndsWith(Lower(s), ".exe.exe") then s[..|s| - 8]
    else if EndsWith(Lower(s), ".exe") then s[..|s| - 4]
    else s
  }

  /** `get_custom_server_from_string`. */
  function FromString(k: Codec, name: string): Option<CustomServer> {
    var s := StripExe(name);
    if Contains(Lower(s), "host=") then Some(FromKeyValues(s)) else FromLicensed(k, s)
  }

  method ParseKeyValues(parts: seq<string>) returns (r: CustomServer)
    ensures r == CustomServer(LastValue(parts, "key="), LastValue(parts, "host="), LastValue(parts, "api="), LastValue(parts, "relay="))
  {
    var host, key, api, relay := "", "", "", "";
    for i := 0 to |parts|
      invariant host == LastValue(parts[..i], "host=") && key == LastValue(parts[..i], "key=")
      invariant api == LastValue(parts[..i], "api=") && relay == LastValue(parts[..i], "relay=")
    {
      assert parts[..i + 1][..i] == parts[..i];
      var el := parts[i];
      var elLower := Lower(el);
      if StartsWith(elLower, "host=") {
        host := el[5..];
      }
      if StartsWith(elLower, "key=") {
        key := el[4..];
      }
      if StartsWith(elLower, "api=") {
        api := el[4..];
      }
      if StartsWith(elLower, "relay=") {
        relay := el[6..];
      }
    }
    assert parts[..|parts|] == parts;
    r := CustomServer(key, host, api, relay);
  }

  /** The loop over the pieces, with its early returns. */
  method TryPieces(k: Codec, pieces: seq<string>) returns (r: Option<CustomServer>)
    ensures r == FromPieces(k, pieces)
  {
    for i := 0 to |pieces|
      invariant FromPieces(k, pieces) == FromPieces(k, pieces[i..])
    {
      var s := pieces[i];
      r := FromConfigString(k, Trim(s));
      if r.Some? {
        return;
      } else if '(' in s {
        var inner := Split(s, "(");
        for j := 0 to |inner|
          invariant FirstOf(k, inner) == FirstOf(k, inner[j..])
        {
          r := FromConfigString(k, Trim(inner[j]));
          if r.Some? {
            return;
          }
        }
      }
    }
    r := None;
  }

  method GetCustomServerFromString(k: Codec, name: string) returns (r: Option<CustomServer>)
    ensures r == FromString(k, name)
  {
    var s := StripExe(name);
    if Contains(Lower(s), "host=") {
      var server := ParseKeyValues(Split(s[FirstIndex(Lower(s), "host=")..], ","));
      r := Some(server);
    } else {
      r := TryPieces(k, Split(Rewrite(s), "--"));
    }
  }
}
