/** The runtime tool registry and the two built-in tools
    (crates/oracle_omen_runtime/src/tools.rs). */
module RuntimeTools {
  import opened Wrappers
  import opened CoreTool
  import Hashing
  import Seqs
  import PlanDag

  /** What a `DynTool` reports about itself; `execute` is modelled only for
      the built-in tools below. */
  datatype DynTool = DynTool(
    id: ToolId, capabilities: seq<string>, sideEffects: SideEffect, resourceBounds: ResourceBounds,
    inputSchema: string, outputSchema: string)

  /** `ToolMetadata`, passed to `execute` and ignored by both built-ins. */
  datatype ToolMetadata = ToolMetadata(logicalTime: nat, runId: nat, seed: Option<nat>)

  /** The tools this crate defines. */
  datatype BuiltinTool = EchoTool | HashTool

  /** The descriptor of a built-in tool: `name@1.0.0`, no capabilities,
      pure, a one-second timeout and a JSON-schema string. */
  function Describe(b: BuiltinTool): (t: DynTool)
    ensures t.id.version == "1.0.0" && t.capabilities == [] && t.sideEffects == Pure
    ensures t.resourceBounds == WithTimeout(1000)
    ensures t.id.name == (if b == EchoTool then "echo" else "hash")
  {
    match b
    case EchoTool =>
      DynTool(ToolId("echo", "1.0.0"), [], Pure, WithTimeout(1000), "{\"type\": \"string\"}", "{\"type\": \"string\"}")
    case HashTool =>
      DynTool(ToolId("hash", "1.0.0"), [], Pure, WithTimeout(1000), "{\"type\": \"string\"}",
        "{\"type\": \"string\", \"description\": \"BLAKE3 hex hash\"}")
  }

  /** The two built-ins are registered under different keys. */
  lemma BuiltinKeysDiffer()
    ensures AsStr(Describe(EchoTool).id) == "echo@1.0.0" && AsStr(Describe(HashTool).id) == "hash@1.0.0"
    ensures AsStr(Describe(EchoTool).id) != AsStr(Describe(HashTool).id)
  {
    assert AsStr(Describe(EchoTool).id)[0] != AsStr(Describe(HashTool).id)[0];
  }

  /** `String::from_utf8` on bytes below 128: one character per byte. */
  function AsciiText(bytes: seq<Hashing.Byte>): (s: string)
    ensures |s| == |bytes|
  {
    seq(|bytes|, i requires 0 <= i < |bytes| => bytes[i] as char)
  }

  /** `execute` of the built-ins: echo copies its input, hash returns the
      hex text of the input's digest as bytes. Both succeed on every input
      and ignore the metadata. */
  function Execute(b: BuiltinTool, input: seq<Hashing.Byte>, metadata: ToolMetadata): (r: Result<seq<Hashing.Byte>, ToolError>)
    ensures r.Ok?
    ensures b == EchoTool ==> r.value == input
    ensures b == HashTool ==> |r.value| == Hashing.HEX_HASH_SIZE
    ensures b == HashTool ==> Hashing.ParseHex(AsciiText(r.value)) == Ok(Hashing.FromBytes(input))
  {
    match b
    case EchoTool => Ok(input)
    case HashTool =>
      var h := Hashing.FromBytes(input);
      HexBytes(h);
      Ok(Hashing.Utf8(Hashing.Hex(h)))
  }

  /** The hex text of a digest is ASCII, so its bytes are its characters
      and read back as the same digest. */
  lemma HexBytes(h: Hashing.Hash)
    ensures |Hashing.Utf8(Hashing.Hex(h))| == Hashing.HEX_HASH_SIZE
    ensures AsciiText(Hashing.Utf8(Hashing.Hex(h))) == Hashing.Hex(h)
    ensures Hashing.ParseHex(AsciiText(Hashing.Utf8(Hashing.Hex(h)))) == Ok(h)
  {
    var hex := Hashing.Hex(h);
    Hashing.ToHexShape(h);
    assert Hashing.IsAscii(hex) by {
      forall i | 0 <= i < |hex| ensures hex[i] as int < 0x80 { assert Hashing.IsLowerHexDigit(hex[i]); }
    }
    Hashing.AsciiUtf8(hex);
    Hashing.HexRoundTrip(h);
  }

  /** `ToolRegistry`: tools keyed by `name@version`. */
  class ToolRegistry {
    var tools: map<string, DynTool>

    /** Each tool is filed under its own identifier string. */
    ghost predicate Valid()
      reads this
    {
      forall k :: k in tools ==> k == AsStr(tools[k].id)
    }

    /** `ToolRegistry::new` (and `Default`). */
    constructor ()
      ensures tools == map[] && Valid()
    {
      tools := map[];
    }

    /** `register`: a tool whose key is taken is refused with the
        "already registered" message (carried by a `NotFound` error) and
        nothing changes; otherwise it is stored under its key. */
    method Register(tool: DynTool) returns (r: Result<(), ToolError>)
      modifies this
      ensures AsStr(tool.id) in old(tools) ==>
        r == Err(NotFound("Tool " + AsStr(tool.id) + " already registered")) && tools == old(tools)
      ensures AsStr(tool.id) !in old(tools) ==> r == Ok(()) && tools == old(tools)[AsStr(tool.id) := tool]
      ensures r.Ok? ==> Get(tool.id) == Some(tool) && |tools| == |old(tools)| + 1
      ensures old(Valid()) ==> Valid()
    {
      var key := AsStr(tool.id);
      if key in tools {
        return Err(NotFound("Tool " + key + " already registered"));
      }
      tools := tools[key := tool];
      r := Ok(());
    }

    /** `get`: the tool filed under `id.as_str()`. */
    function Get(id: ToolId): (r: Option<DynTool>)
      reads this
      ensures r.Some? <==> AsStr(id) in tools
      ensures r.Some? ==> r.value == tools[AsStr(id)]
    {
      if AsStr(id) in tools then Some(tools[AsStr(id)]) else None
    }

    /** `list`: the id of every registered tool, one per entry, in the
        map's iteration order, which the source leaves unspecified. */
    method List() returns (r: seq<ToolId>)
      ensures |r| == |tools|
      ensures forall x :: x in r <==> exists k :: k in tools && tools[k].id == x
      ensures Valid() ==> Seqs.Distinct(r)
    {
      var ks := PlanDag.InOrder(tools.Keys);
      var m := tools;
      r := seq(|ks|, i requires 0 <= i < |ks| && ks[i] in m => m[ks[i]].id);
      forall x | x in r ensures exists k :: k in tools && tools[k].id == x {
        var i :| 0 <= i < |r| && r[i] == x;
        assert ks[i] in tools;
      }
      forall x | exists k :: k in tools && tools[k].id == x ensures x in r {
        var k :| k in tools && tools[k].id == x;
        var i :| 0 <= i < |ks| && ks[i] == k;
        assert r[i] == m[ks[i]].id == x;
      }
      if Valid() {
        forall i, j | 0 <= i < j < |r| ensures r[i] != r[j] {
          assert r[i] == m[ks[i]].id && r[j] == m[ks[j]].id;
          assert ks[i] == AsStr(r[i]) && ks[j] == AsStr(r[j]);
          assert ks[..j][i] == ks[i];
          assert ks[j] !in ks[..j];
        }
      }
    }
  }

  /** In a valid registry, a tool found under an id whose name holds no
      `@` carries that very id (unless its own name holds an `@`). */
  lemma GetFindsItsId(registry: ToolRegistry, id: ToolId)
    requires registry.Valid() && '@' !in id.name
    ensures var r := registry.Get(id); r.Some? && '@' !in r.value.id.name ==> r.value.id == id
  {
    var r := registry.Get(id);
    if r.Some? && '@' !in r.value.id.name {
      AsStrInjective(id, r.value.id);
    }
  }

  /** The registry unit test: echo and hash both register and are listed. */
  method RegistryExample() returns (n: nat, echo: Option<DynTool>)
    ensures n == 2 && echo == Some(Describe(EchoTool))
  {
    var registry := new ToolRegistry();
    BuiltinKeysDiffer();
    var r1 := registry.Register(Describe(EchoTool));
    var r2 := registry.Register(Describe(HashTool));
    var ids := registry.List();
    n := |ids|;
    echo := registry.Get(ToolId("echo", "1.0.0"));
  }

  /** The echo and hash unit tests: `hello` comes back unchanged and the
      hash of `test` is 64 characters of hex. */
  lemma BuiltinExamples()
    ensures Execute(EchoTool, [104, 101, 108, 108, 111], ToolMetadata(0, 1, None)) == Ok([104, 101, 108, 108, 111])
    ensures |Execute(HashTool, [116, 101, 115, 116], ToolMetadata(0, 1, None)).value| == 64
  {
  }
}
