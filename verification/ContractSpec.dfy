/** The entries a contract's wasm carries in custom sections, and appending metadata to them. */
module ContractSpec {
  import opened Wrappers
  import opened Octets
  import opened XdrStream
  import opened SpecTypes

  datatype Section = Custom(name: Text, data: seq<byte>) | OtherSection

  /** "contractenvmetav0", "contractmetav0" and "contractspecv0" */
  const ENV_META: Text := [99, 111, 110, 116, 114, 97, 99, 116, 101, 110, 118, 109, 101, 116, 97, 118, 48]
  const META_NAME: Text := [99, 111, 110, 116, 114, 97, 99, 116, 109, 101, 116, 97, 118, 48]
  const SPEC: Text := [99, 111, 110, 116, 114, 97, 99, 116, 115, 112, 101, 99, 118, 48]

  datatype EnvEntry = EnvEntry(protocol: u32, preRelease: u32)

  /** Foreign code: the framing of wasm files and the codecs of entries not modelled here. */
  datatype Tools = Tools(
    sections: seq<byte> -> Option<seq<Section>>,
    writeSection: (seq<byte>, Text, seq<byte>) -> seq<byte>,
    envCodec: Codec<EnvEntry>,
    specCodec: Codec<SpecEntry>)
  {
    /** A section written at the end of a file is read back after those the file had. */
    ghost predicate WritesSections() {
      forall w, n, d :: sections(w).Some? ==>
        sections(writeSection(w, n, d)) == Some(sections(w).value + [Custom(n, d)])
    }
  }

  datatype Error = WasmParse | Xdr | MetaArg

  type Res<+T> = Result<T, Error>

  /** `contract::Spec`: the three lists, each with its raw bytes if there was such a section. */
  datatype Extracted = Extracted(
    envRaw: Option<seq<byte>>, env: seq<EnvEntry>,
    metaRaw: Option<seq<byte>>, meta: seq<MetaEntry>,
    specRaw: Option<seq<byte>>, spec: seq<SpecEntry>)

  function Append(out: Option<seq<byte>>, data: seq<byte>): Option<seq<byte>> {
    match out
    case None => Some(data)
    case Some(existing) => Some(existing + data)
  }

  /** The data of all custom sections of a name, in file order. */
  function Gather(sections: seq<Section>, name: Text): Option<seq<byte>> {
    if sections == [] then None
    else
      GatherOne(Gather(sections[..|sections| - 1], name), sections[|sections| - 1], name)
  }

  function GatherOne(before: Option<seq<byte>>, section: Section, name: Text): Option<seq<byte>> {
    if section.Custom? && section.name == name then Append(before, section.data) else before
  }

  function DecodeSection<T>(codec: Codec<T>, raw: Option<seq<byte>>): Res<seq<T>> {
    match raw
    case None => Ok([])
    case Some(b) =>
      match DecodeAll(codec, b)
      case None => Err(Xdr)
      case Some(xs) => Ok(xs)
  }

  function Extract(t: Tools, wasm: seq<byte>): Res<Extracted> {
    match t.sections(wasm)
    case None => Err(WasmParse)
    case Some(sections) =>
      var envRaw, metaRaw, specRaw := Gather(sections, ENV_META), Gather(sections, META_NAME), Gather(sections, SPEC);
      var env :- DecodeSection(t.envCodec, envRaw);
      var meta :- DecodeSection(META, metaRaw);
      var spec :- DecodeSection(t.specCodec, specRaw);
      Ok(Extracted(envRaw, env, metaRaw, meta, specRaw, spec))
  }

  /** `Spec::new`: three optional buffers grow section by section, then each is decoded. */
  method SpecNew(t: Tools, wasm: seq<byte>) returns (r: Res<Extracted>)
    ensures r == Extract(t, wasm)
  {
    var parsed := t.sections(wasm);
    if parsed.None? {
      return Err(WasmParse);
    }
    var sections := parsed.value;
    var envMeta: Option<seq<byte>>, meta: Option<seq<byte>>, spec: Option<seq<byte>> := None, None, None;
    for i := 0 to |sections|
      invariant envMeta == Gather(sections[..i], ENV_META)
      invariant meta == Gather(sections[..i], META_NAME)
      invariant spec == Gather(sections[..i], SPEC)
    {
      GatherSnoc(sections, i);
      if sections[i].Custom? {
        var name, data := sections[i].name, sections[i].data;
        NamesDiffer();
        if name == ENV_META {
          envMeta := Append(envMeta, data);
        } else if name == META_NAME {
          meta := Append(meta, data);
        } else if name == SPEC {
          spec := Append(spec, data);
        }
      }
    }
    assert sections[..|sections|] == sections;
    var envEntries := DecodeSection(t.envCodec, envMeta);
    if envEntries.Err? {
      return Err(envEntries.error);
    }
    var metaEntries := DecodeSection(META, meta);
    if metaEntries.Err? {
      return Err(metaEntries.error);
    }
    var specEntries := DecodeSection(t.specCodec, spec);
    if specEntries.Err? {
      return Err(specEntries.error);
    }
    r := Ok(Extracted(envMeta, envEntries.value, meta, metaEntries.value, spec, specEntries.value));
  }

  lemma {:induction false} NamesDiffer()
    ensures ENV_META != META_NAME && META_NAME != SPEC && ENV_META != SPEC
  {
    assert ENV_META[8] == 101 && META_NAME[8] == 109 && SPEC[8] == 115;
  }

  lemma {:induction false} GatherSnoc(sections: seq<Section>, i: nat)
    requires i < |sections|
    ensures forall name :: Gather(sections[..i + 1], name) == GatherOne(Gather(sections[..i], name), sections[i], name)
  {
    assert sections[..i + 1][..i] == sections[..i];
  }

  // ----- What extraction yields, by section index -----

  /** The positions of the custom sections of a name, in file order. */
  ghost predicate ListsNamed(sections: seq<Section>, name: Text, at: seq<nat>) {
    && (forall i, j :: 0 <= i < j < |at| ==> at[i] < at[j])
    && (forall i :: 0 <= i < |at| ==> at[i] < |sections| && sections[at[i]].Custom? && sections[at[i]].name == name)
    && (forall p :: 0 <= p < |sections| && sections[p].Custom? && sections[p].name == name ==> p in at)
  }

  /** The data of the sections at the positions, end to end. */
  function Joined(sections: seq<Section>, at: seq<nat>): seq<byte>
    requires forall i :: 0 <= i < |at| ==> at[i] < |sections| && sections[at[i]].Custom?
  {
    if at == [] then [] else Joined(sections, at[..|at| - 1]) + sections[at[|at| - 1]].data
  }

  lemma {:induction false} JoinedInLonger(sections: seq<Section>, more: seq<Section>, at: seq<nat>)
    requires forall i :: 0 <= i < |at| ==> at[i] < |sections| && sections[at[i]].Custom?
    ensures Joined(sections + more, at) == Joined(sections, at)
  {
    if at != [] {
      var x := at[|at| - 1];
      JoinedInLonger(sections, more, at[..|at| - 1]);
      assert (sections + more)[x] == sections[x];
    }
  }

  lemma {:induction false} JoinedOneMore(sections: seq<Section>, at: seq<nat>, n: nat)
    requires forall i :: 0 <= i < |at| ==> at[i] < |sections| && sections[at[i]].Custom?
    requires n < |sections| && sections[n].Custom?
    ensures Joined(sections, at + [n]) == Joined(sections, at) + sections[n].data
    ensures at == [] ==> Joined(sections, at + [n]) == sections[n].data
  {
    assert (at + [n])[..|at|] == at;
    if at == [] { assert [] + sections[n].data == sections[n].data; }
  }

  lemma {:induction false} GatherListed(sections: seq<Section>, name: Text) returns (at: seq<nat>)
    ensures ListsNamed(sections, name, at)
    ensures Gather(sections, name) == if at == [] then None else Some(Joined(sections, at))
  {
    if sections == [] {
      at := [];
    } else {
      var n := |sections| - 1;
      var front, last := sections[..n], sections[n];
      var before := GatherListed(front, name);
      assert sections == front + [last];
      assert Gather(sections, name) == GatherOne(Gather(front, name), last, name);
      JoinedInLonger(front, [last], before);
      ListedOneMore(front, last, name, before);
      hide Gather, ListsNamed;
      at := before;
      if last.Custom? && last.name == name {
        at := before + [n];
        JoinedOneMore(sections, before, n);
      }
    }
  }

  lemma {:induction false} ListedOneMore(front: seq<Section>, last: Section, name: Text, before: seq<nat>)
    requires ListsNamed(front, name, before)
    ensures last.Custom? && last.name == name ==> ListsNamed(front + [last], name, before + [|front|])
    ensures !(last.Custom? && last.name == name) ==> ListsNamed(front + [last], name, before)
  {
    var sections, at := front + [last], before + [|front|];
    forall p | 0 <= p < |front| && sections[p].Custom? && sections[p].name == name ensures p in before && p in at {
      assert front[p] == sections[p];
    }
  }

  /** The entries of all sections of a name, decoded as one stream. */
  ghost predicate HoldsEntries<T(!new)>(sections: seq<Section>, name: Text, codec: Codec<T>, entries: Option<seq<T>>) {
    exists at :: ListsNamed(sections, name, at) && DecodeAll(codec, Joined(sections, at)) == entries
  }

  lemma {:induction false} SectionHolds<T(!new)>(sections: seq<Section>, name: Text, codec: Codec<T>)
    ensures var r := DecodeSection(codec, Gather(sections, name));
            HoldsEntries(sections, name, codec, if r.Ok? then Some(r.value) else None)
  {
    var at := GatherListed(sections, name);
    hide Gather;
    assert at == [] ==> DecodeAll(codec, Joined(sections, at)) == Some([]);
    var r := DecodeSection(codec, Gather(sections, name));
    assert DecodeAll(codec, Joined(sections, at)) == if r.Ok? then Some(r.value) else None;
  }

  /** The positions of a name are determined, so what the sections of a name hold is too. */
  lemma {:induction false} ListedOnce(sections: seq<Section>, name: Text, a: seq<nat>, b: seq<nat>)
    requires ListsNamed(sections, name, a) && ListsNamed(sections, name, b)
    ensures a == b
  {
    if a != [] { FirstListed(sections, name, a, b); }
    if b != [] { FirstListed(sections, name, b, a); }
    if a != [] && b != [] {
      var i, j := |a| - 1, |b| - 1;
      LastIsLast(sections, name, a, b);
      LastIsLast(sections, name, b, a);
      ListedShorter(sections, name, a);
      ListedShorter(sections, name, b);
      ListedOnce(sections[..a[i]], name, a[..i], b[..j]);
      assert a == a[..i] + [a[i]] && b == b[..j] + [b[j]];
    }
  }

  lemma {:induction false} FirstListed(sections: seq<Section>, name: Text, a: seq<nat>, b: seq<nat>)
    requires ListsNamed(sections, name, a) && ListsNamed(sections, name, b) && a != []
    ensures a[0] in b
  {
  }

  lemma {:induction false} LastIsLast(sections: seq<Section>, name: Text, a: seq<nat>, b: seq<nat>)
    requires ListsNamed(sections, name, a) && ListsNamed(sections, name, b) && a != [] && b != []
    ensures a[|a| - 1] <= b[|b| - 1]
  {
    assert a[|a| - 1] in b;
  }

  lemma {:induction false} ListedShorter(sections: seq<Section>, name: Text, at: seq<nat>)
    requires ListsNamed(sections, name, at) && at != []
    ensures ListsNamed(sections[..at[|at| - 1]], name, at[..|at| - 1])
  {
    var n := at[|at| - 1];
    forall p | 0 <= p < n && sections[p].Custom? && sections[p].name == name ensures p in at[..|at| - 1] { assert p in at; }
  }

  lemma {:induction false} SectionNames()
    ensures ENV_META == Spell("contractenvmetav0") && META_NAME == Spell("contractmetav0") && SPEC == Spell("contractspecv0")
  {
    assert Spell("contractenvmetav0") == [99, 111, 110, 116, 114, 97, 99, 116, 101, 110, 118, 109, 101, 116, 97, 118, 48];
    assert Spell("contractmetav0") == [99, 111, 110, 116, 114, 97, 99, 116, 109, 101, 116, 97, 118, 48];
    assert Spell("contractspecv0") == [99, 111, 110, 116, 114, 97, 99, 116, 115, 112, 101, 99, 118, 48];
  }

  /**
   Extraction succeeds exactly when the file parses and, for each of the three names, the sections of that
   name laid end to end decode as a stream; the lists are what they decode to.
   */
  lemma {:induction false} ExtractExactly(t: Tools, wasm: seq<byte>)
    ensures t.sections(wasm).None? ==> Extract(t, wasm) == Err(WasmParse)
    ensures t.sections(wasm).Some? && Extract(t, wasm).Ok? ==>
      var s, x := t.sections(wasm).value, Extract(t, wasm).value;
      && HoldsEntries(s, ENV_META, t.envCodec, Some(x.env))
      && HoldsEntries(s, META_NAME, META, Some(x.meta))
      && HoldsEntries(s, SPEC, t.specCodec, Some(x.spec))
    ensures t.sections(wasm).Some? && Extract(t, wasm).Err? ==>
      var s := t.sections(wasm).value;
      || HoldsEntries(s, ENV_META, t.envCodec, None)
      || HoldsEntries(s, META_NAME, META, None)
      || HoldsEntries(s, SPEC, t.specCodec, None)
  {
    hide Gather, DecodeSection, HoldsEntries;
    if t.sections(wasm).Some? {
      var s := t.sections(wasm).value;
      SectionHolds(s, ENV_META, t.envCodec);
      SectionHolds(s, META_NAME, META);
      SectionHolds(s, SPEC, t.specCodec);
    }
  }

  /** What the sections of a name hold is one thing: either that list, or nothing that decodes. */
  lemma {:induction false} HoldsOnce<T(!new)>(sections: seq<Section>, name: Text, codec: Codec<T>, x: Option<seq<T>>, y: Option<seq<T>>)
    requires HoldsEntries(sections, name, codec, x) && HoldsEntries(sections, name, codec, y)
    ensures x == y
  {
    var a :| ListsNamed(sections, name, a) && DecodeAll(codec, Joined(sections, a)) == x;
    var b :| ListsNamed(sections, name, b) && DecodeAll(codec, Joined(sections, b)) == y;
    hide ListsNamed;
    ListedOnce(sections, name, a, b);
  }

  /** A specification section written at the end of a file adds its entries, in order, to those there were. */
  lemma {:induction false} SpecAppends(t: Tools, wasm: seq<byte>, xs: seq<SpecEntry>)
    requires t.WritesSections() && SelfDelimiting(t.specCodec) && Extract(t, wasm).Ok?
    ensures var before, after := Extract(t, wasm).value, Extract(t, t.writeSection(wasm, SPEC, EncodeAll(t.specCodec, xs)));
      && after.Ok? && after.value.spec == before.spec + xs
      && after.value.env == before.env && after.value.meta == before.meta
  {
    var data, s := EncodeAll(t.specCodec, xs), t.sections(wasm).value;
    var longer := s + [Custom(SPEC, data)];
    assert t.sections(t.writeSection(wasm, SPEC, data)) == Some(longer);
    hide EncodeAll, DecodeSection, SelfDelimiting, Tools.WritesSections;
    SpecGathered(s, data);
    hide Gather;
    AppendedDecodes(t.specCodec, Gather(s, SPEC), xs);
  }

  lemma {:induction false} SpecGathered(s: seq<Section>, data: seq<byte>)
    ensures var longer := s + [Custom(SPEC, data)];
      && Gather(longer, SPEC) == Append(Gather(s, SPEC), data)
      && Gather(longer, ENV_META) == Gather(s, ENV_META)
      && Gather(longer, META_NAME) == Gather(s, META_NAME)
  {
    NamesDiffer();
    var longer := s + [Custom(SPEC, data)];
    GatherSnoc(longer, |s|);
    hide Gather;
    assert longer[..|s|] == s && longer[..|s| + 1] == longer;
  }

  // ----- Metadata -----

  /** The file with one extra section for every entry. */
  function WithMeta(t: Tools, wasm: seq<byte>, entries: seq<MetaEntry>): seq<byte> {
    if entries == [] then wasm
    else
      t.writeSection(WithMeta(t, wasm, entries[..|entries| - 1]), META_NAME, EncodeMeta(entries[|entries| - 1]))
  }

  /** Keys and values given as text become XDR strings, if they fit. */
  function MetaEntries(pairs: seq<(Text, Text)>): (r: Res<seq<MetaEntry>>)
    ensures r.Ok? <==> forall i :: 0 <= i < |pairs| ==> |pairs[i].0| <= 0xFFFF_FFFF && |pairs[i].1| <= 0xFFFF_FFFF
    ensures r.Ok? ==> |r.value| == |pairs| && forall i :: 0 <= i < |pairs| ==> r.value[i].key == pairs[i].0 && r.value[i].val == pairs[i].1
    ensures r.Err? ==> r.error == MetaArg
  {
    if pairs == [] then Ok([])
    else
      var front :- MetaEntries(pairs[..|pairs| - 1]);
      var (k, v) := pairs[|pairs| - 1];
      if |k| > U32_MAX || |v| > U32_MAX then Err(MetaArg) else Ok(front + [MetaEntry(k, v)])
  }

  /** `handle_contract_metadata_args`, on the bytes of the file. */
  method AddMetadata(t: Tools, wasm: seq<byte>, pairs: seq<(Text, Text)>) returns (r: Res<seq<byte>>)
    ensures r.Ok? <==> MetaEntries(pairs).Ok?
    ensures r.Ok? ==> r.value == WithMeta(t, wasm, MetaEntries(pairs).value)
    ensures r.Err? ==> r.error == MetaArg
  {
    if pairs == [] {
      return Ok(wasm);
    }
    var bytes := wasm;
    ghost var entries: seq<MetaEntry> := [];
    for i := 0 to |pairs|
      invariant MetaEntries(pairs[..i]) == Ok(entries)
      invariant bytes == WithMeta(t, wasm, entries)
    {
      var (k, v) := pairs[i];
      assert pairs[..i + 1][..i] == pairs[..i];
      if |k| > U32_MAX || |v| > U32_MAX {
        MetaPrefixFails(pairs, i + 1);
        return Err(MetaArg);
      }
      var entry := MetaEntry(k, v);
      bytes := t.writeSection(bytes, META_NAME, EncodeMeta(entry));
      assert (entries + [entry])[..|entries|] == entries;
      entries := entries + [entry];
    }
    assert pairs[..|pairs|] == pairs;
    r := Ok(bytes);
  }

  lemma {:induction false} MetaPrefixFails(pairs: seq<(Text, Text)>, i: nat)
    requires i <= |pairs| && MetaEntries(pairs[..i]).Err?
    ensures MetaEntries(pairs) == Err(MetaArg)
  {
    if i < |pairs| {
      assert pairs[..|pairs| - 1][..i] == pairs[..i];
      MetaPrefixFails(pairs[..|pairs| - 1], i);
    } else {
      assert pairs[..i] == pairs;
    }
  }

  lemma {:induction false} SectionsWithMeta(t: Tools, wasm: seq<byte>, entries: seq<MetaEntry>)
    requires t.WritesSections() && t.sections(wasm).Some?
    ensures t.sections(WithMeta(t, wasm, entries)).Some?
    ensures var old_, new_ := t.sections(wasm).value, t.sections(WithMeta(t, wasm, entries)).value;
      && Gather(new_, ENV_META) == Gather(old_, ENV_META)
      && Gather(new_, SPEC) == Gather(old_, SPEC)
      && (entries == [] ==> Gather(new_, META_NAME) == Gather(old_, META_NAME))
      && (entries != [] ==> Gather(new_, META_NAME) == Append(Gather(old_, META_NAME), EncodeAll(META, entries)))
  {
    hide EncodeMeta, Gather, EncodeAll, Tools.WritesSections;
    if entries != [] {
      var front, last := entries[..|entries| - 1], entries[|entries| - 1];
      SectionsWithMeta(t, wasm, front);
      var s, data := t.sections(WithMeta(t, wasm, front)).value, EncodeMeta(last);
      SectionWritten(t, WithMeta(t, wasm, front), data);
      assert front + [last] == entries;
      hide WithMeta;
      GatherAppended(s, data);
      EncodedOneMore(front, last);
      AppendTwice(Gather(t.sections(wasm).value, META_NAME), EncodeAll(META, front), data);
    }
  }

  lemma {:induction false} SectionWritten(t: Tools, wasm: seq<byte>, data: seq<byte>)
    requires t.WritesSections() && t.sections(wasm).Some?
    ensures t.sections(t.writeSection(wasm, META_NAME, data)) == Some(t.sections(wasm).value + [Custom(META_NAME, data)])
  {
  }

  lemma {:induction false} GatherAppended(s: seq<Section>, data: seq<byte>)
    ensures var longer := s + [Custom(META_NAME, data)];
      && Gather(longer, META_NAME) == Append(Gather(s, META_NAME), data)
      && Gather(longer, ENV_META) == Gather(s, ENV_META)
      && Gather(longer, SPEC) == Gather(s, SPEC)
  {
    NamesDiffer();
    var longer := s + [Custom(META_NAME, data)];
    GatherSnoc(longer, |s|);
    hide Gather;
    assert longer[..|s|] == s && longer[..|s| + 1] == longer;
  }

  lemma {:induction false} EncodedOneMore(front: seq<MetaEntry>, last: MetaEntry)
    ensures EncodeAll(META, front + [last]) == EncodeAll(META, front) + EncodeMeta(last)
    ensures front == [] ==> EncodeAll(META, front) == []
  {
    hide EncodeMeta;
    assert (front + [last])[..|front|] == front;
  }

  lemma {:induction false} AppendTwice(raw: Option<seq<byte>>, a: seq<byte>, b: seq<byte>)
    ensures Append(Append(raw, a), b) == Append(raw, a + b)
    ensures a == [] ==> Append(raw, b) == Append(raw, a + b)
  {
    if raw.Some? { assert (raw.value + a) + b == raw.value + (a + b); }
    assert a == [] ==> a + b == b;
  }

  /**
   After appending metadata, extraction yields the old metadata entries followed by the new ones in
   order; the specification and the environment metadata are unchanged.
   */
  lemma {:induction false} MetadataAppends(t: Tools, wasm: seq<byte>, entries: seq<MetaEntry>)
    requires t.WritesSections() && Extract(t, wasm).Ok?
    ensures Extract(t, WithMeta(t, wasm, entries)).Ok?
    ensures var before, after := Extract(t, wasm).value, Extract(t, WithMeta(t, wasm, entries)).value;
      && after.meta == before.meta + entries
      && after.spec == before.spec && after.specRaw == before.specRaw
      && after.env == before.env && after.envRaw == before.envRaw
  {
    SectionsWithMeta(t, wasm, entries);
    var raw := Gather(t.sections(wasm).value, META_NAME);
    hide Gather, WithMeta, EncodeAll, DecodeSection;
    if entries == [] {
      assert Extract(t, wasm).value.meta + [] == Extract(t, wasm).value.meta;
    } else {
      MetaIsSelfDelimiting();
      hide SelfDelimiting;
      AppendedDecodes(META, raw, entries);
    }
  }

  lemma {:induction false} AppendedDecodes<T(!new)>(codec: Codec<T>, raw: Option<seq<byte>>, entries: seq<T>)
    requires SelfDelimiting(codec) && DecodeSection(codec, raw).Ok?
    ensures DecodeSection(codec, Append(raw, EncodeAll(codec, entries))) == Ok(DecodeSection(codec, raw).value + entries)
  {
    DecodeEncoded(codec, entries);
    hide EncodeAll, SelfDelimiting, DecodeAll;
    if raw.None? {
      assert [] + entries == entries;
    } else {
      DecodeConcat(codec, raw.value, EncodeAll(codec, entries));
    }
  }
}
