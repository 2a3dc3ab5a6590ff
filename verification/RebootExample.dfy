/** One run whose files meet every assumption under which the produced chain is accepted. */
module RebootExample {
  import opened JsonModel
  import opened Results
  import opened Text
  import HashChain
  import R = RebootMatrix
  import C = RebootChain

  function Zeros(): string {
    seq(62, i => '0')
  }

  /** A receipt is printed as the id of its cycle; nothing else is printed. */
  function Print(j: Json): string {
    var id := Get(j, "cycle_id");
    if id.Str? then id.s else ""
  }

  function Rest(k: nat): map<string, Json> { map[] }

  function Names(): C.Naming {
    C.Naming(Print, "", "", Rest, Anchor("seed"), Anchor("flash"))
  }

  /** Distinct for the ids of the eight cycles: `:software:1` to `:software:5`, `:cold:1` to `:cold:3`. */
  function Digest(s: string): string {
    Zeros() + [if |s| > 8 then 'a' else 'b', if s == "" then '0' else s[|s| - 1]]
  }

  /** The row of a file that holds `1`. */
  function Anchor(path: string): Json {
    Obj(map["path" := Str(path), "size" := Int(1), "sha256" := Str(Digest("1"))])
  }

  function DigestOf(r: R.Receipt): string {
    if r.Cycle? then Digest(C.CycleId(Names(), r.cycle)) else ""
  }

  /** Every step succeeds. */
  function Run(): R.World {
    R.World(
      true, _ => true, true, None, Digest("1"), Digest("1"), _ => true, _ => R.Finished(true, true), _ => true, _ => true,
      DigestOf, true, _ => R.Accepted, true, true)
  }

  /** The receipts are found again by their ids. */
  function Parse(s: string, n: nat): Option<Json> {
    if n == 0 then None
    else if s == C.CycleId(Names(), n - 1) then Some(C.CycleJson(Names(), R.SentByCycle(Run(), n - 1)))
    else Parse(s, n - 1)
  }

  function ParseFile(s: string): Option<Json> { Parse(s, R.CYCLES) }

  function Tools(): HashChain.Tools {
    HashChain.Tools(Digest, ParseFile, _ => true, _ => "")
  }

  function FilesTo(n: nat): HashChain.Files {
    if n == 0 then map["seed" := "1", "flash" := "1"]
    else FilesTo(n - 1)[C.PathOf(Names(), n - 1) := C.CycleFile(Names(), Run(), n - 1)]
  }

  function Files(): HashChain.Files { FilesTo(R.CYCLES) }

  lemma FileIsId(k: nat)
    requires k < R.CYCLES
    ensures C.CycleFile(Names(), Run(), k) == C.CycleId(Names(), k) == ":" + C.Label(k, ':')
    ensures R.SentByCycle(Run(), k).Cycle? && R.SentByCycle(Run(), k).cycle == k
    ensures R.RowOf(Run(), k).sha256 == Digest(C.CycleId(Names(), k))
  {
    C.CycleFields(Names(), R.SentByCycle(Run(), k));
    assert C.CycleId(Names(), k) == ":" + C.Label(k, ':');
    hide C.CycleJson, Digest, C.Label, C.CycleId;
  }

  lemma {:induction false} Parsed(k: nat, n: nat)
    requires k < n <= R.CYCLES
    ensures Parse(C.CycleId(Names(), k), n) == Some(C.CycleJson(Names(), R.SentByCycle(Run(), k)))
  {
    hide C.CycleId, C.CycleJson, R.SentByCycle;
    if k < n - 1 {
      C.IdsDiffer(Names(), k, n - 1);
      Parsed(k, n - 1);
    }
  }

  lemma {:induction false} Stored(k: nat, n: nat)
    requires k < n <= R.CYCLES
    ensures C.PathOf(Names(), k) in FilesTo(n) && FilesTo(n)[C.PathOf(Names(), k)] == C.CycleFile(Names(), Run(), k)
  {
    hide C.PathOf, C.CycleFile;
    if k < n - 1 {
      C.PathsDiffer(Names(), k, n - 1);
      Stored(k, n - 1);
    }
  }

  lemma NotAnAnchor(k: nat)
    ensures C.PathOf(Names(), k) !in {"seed", "flash"}
  {
    assert C.PathOf(Names(), k)[0] == '/';
    hide *;
    assert "seed"[0] == 's' && "flash"[0] == 'f';
  }

  lemma {:induction false} AnchorsStored(n: nat, path: string)
    requires path in {"seed", "flash"}
    ensures path in FilesTo(n) && FilesTo(n)[path] == "1"
  {
    hide C.PathOf, C.CycleFile, Names, Run;
    if n > 0 {
      AnchorsStored(n - 1, path);
      NotAnAnchor(n - 1);
    }
  }

  lemma DigestIsHex(s: string)
    requires s != "" ==> '0' <= s[|s| - 1] <= '9'
    ensures Hex(Digest(s), 64)
  {
    var d := Digest(s);
    forall i | 0 <= i < 64 ensures '0' <= d[i] <= '9' || 'a' <= d[i] <= 'f' {
      assert d[i] == if i < 62 then Zeros()[i] else d[i];
    }
  }

  /** The id of a cycle ends in its ordinal, a single digit, and its length tells its type. */
  lemma IdEnds(k: nat)
    requires k < R.CYCLES
    ensures var s := C.CycleId(Names(), k);
      && s != "" && '0' <= s[|s| - 1] <= '9' && s[|s| - 1] as int == '0' as int + HashChain.ExpectedOrdinal(k)
      && (|s| > 8 <==> k < HashChain.SOFTWARE_CYCLES)
  {
  }

  lemma DigestsApart(i: nat, j: nat)
    requires i < j < R.CYCLES
    ensures Digest(C.CycleId(Names(), i)) != Digest(C.CycleId(Names(), j))
  {
    IdEnds(i);
    IdEnds(j);
    var d, e := Digest(C.CycleId(Names(), i)), Digest(C.CycleId(Names(), j));
    hide C.CycleId;
    assert d[62] != e[62] || d[63] != e[63];
  }

  lemma AnchorFields(path: string)
    ensures Get(Anchor(path), "path") == Str(path) && Get(Anchor(path), "size") == Int(1)
    ensures Get(Anchor(path), "sha256") == Str(Digest("1"))
  {
    hide Digest;
  }

  lemma AnchorMatches(path: string)
    requires path in {"seed", "flash"}
    ensures HashChain.RowMatches(Anchor(path), Files(), Tools()) && Get(Anchor(path), "sha256") == Str(Digest("1"))
  {
    assert path != "";
    AnchorsStored(R.CYCLES, path);
    AnchorFields(path);
    DigestIsHex("1");
    hide FilesTo, Digest, Hex, Names, Run, Anchor, Get;
  }

  /** The assumptions of `ProducedChainAccepted` can be met. */
  lemma AssumptionsAreMet()
    ensures C.Sound(Names(), Run(), Tools()) && C.Written(Names(), Run(), Files(), Tools())
    ensures C.AllClosed(Names(), Run(), Tools())
    ensures HashChain.ChainAccepted(C.MatrixOf(Names(), Run()), Files(), Tools())
  {
    hide C.CycleFile, C.CycleId, C.CycleJson, C.PathOf, Digest, Parse, FilesTo, R.RowOf, R.SentByCycle, Anchor, Hex,
      HashChain.RowMatches;
    forall k: nat | k < R.CYCLES ensures R.SentByCycle(Run(), k).Cycle? {
      FileIsId(k);
    }
    forall k: nat | k < R.CYCLES
      ensures Hex(Tools().digest(C.CycleFile(Names(), Run(), k)), 64)
      ensures Tools().parse(C.CycleFile(Names(), Run(), k)) == Some(C.CycleJson(Names(), R.SentByCycle(Run(), k)))
      ensures R.RowOf(Run(), k).sha256 == Tools().digest(C.CycleFile(Names(), Run(), k))
      ensures C.PathOf(Names(), k) in Files() && Files()[C.PathOf(Names(), k)] == C.CycleFile(Names(), Run(), k)
    {
      FileIsId(k);
      IdEnds(k);
      DigestIsHex(C.CycleId(Names(), k));
      Parsed(k, R.CYCLES);
      Stored(k, R.CYCLES);
    }
    forall i: nat, j: nat | i < j < R.CYCLES
      ensures Tools().digest(C.CycleFile(Names(), Run(), i)) != Tools().digest(C.CycleFile(Names(), Run(), j))
    {
      FileIsId(i);
      FileIsId(j);
      DigestsApart(i, j);
    }
    AnchorMatches("seed");
    AnchorMatches("flash");
    C.ProducedChainAccepted(Names(), Run(), Files(), Tools());
  }
}
