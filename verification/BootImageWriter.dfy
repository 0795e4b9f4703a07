/** The writer of tools/mkbootimg.py: an output file that grows at its end. */
module BootImageWriter {
  import opened Wrappers
  import opened BootImage

  lemma {:induction false} PackAllJoins(a: seq<Field>, b: seq<Field>)
    requires FieldsOk(a) && FieldsOk(b)
    ensures FieldsOk(a + b) && PackAll(a + b) == PackAll(a) + PackAll(b)
    decreases |b|
  {
    hide Pack, FieldOk;
    if b == [] {
      assert a + b == a;
    } else {
      var last := |b| - 1;
      PackAllJoins(a, b[..last]);
      assert (a + b)[..|a + b| - 1] == a + b[..last];
    }
  }

  lemma NoFields(fs: seq<Field>)
    ensures FieldsOk(fs[..0]) && PackAll(fs[..0]) == []
  {
  }

  lemma NextField(fs: seq<Field>, k: nat)
    requires k < |fs| && FieldsOk(fs[..k])
    ensures !FieldOk(fs[k]) ==> !FieldsOk(fs)
    ensures FieldOk(fs[k]) ==> FieldsOk(fs[..k + 1]) && PackAll(fs[..k + 1]) == PackAll(fs[..k]) + Pack(fs[k])
  {
    hide Pack, FieldOk;
    assert fs[..k + 1][..k] == fs[..k];
    forall x | 0 <= x < k
      ensures FieldOk(fs[x])
    {
      assert fs[x] == fs[..k][x];
    }
  }

  lemma SuffixOk(a: seq<Field>, b: seq<Field>)
    ensures FieldsOk(a + b) ==> FieldsOk(b)
  {
    forall k | 0 <= k < |b|
      ensures (a + b)[|a| + k] == b[k]
    {
    }
  }

  class OutputFile {
    var data: seq<Byte>

    constructor ()
      ensures data == []
    {
      data := [];
    }

    method Write(bytes: seq<Byte>)
      modifies this
      ensures data == old(data) + bytes
    {
      data := data + bytes;
    }

    /** pad_file: zeros up to the next multiple of the padding. */
    method PadFile(padding: nat)
      requires PageSizeOk(padding)
      modifies this
      ensures data == Padded(old(data), padding)
      ensures |data| % padding == 0 && |data| - |old(data)| < padding
    {
      PaddingFills(padding, |data|);
      MultipleModulo(Pages(|data|, padding), padding, 0);
      Write(Zeros(Padding(padding, |data|)));
    }

    /** write_padded_file. */
    method WritePaddedFile(f: Option<seq<Byte>>, padding: nat)
      requires PageSizeOk(padding)
      modifies this
      ensures data == Appended(old(data), f, padding)
    {
      if f.None? {
        return;
      }
      Write(f.value);
      PadFile(padding);
    }

    /** Packs and writes fields until one does not fit. */
    method WriteFields(fs: seq<Field>) returns (ok: bool)
      modifies this
      ensures ok <==> FieldsOk(fs)
      ensures ok ==> data == old(data) + PackAll(fs)
      ensures old(data) <= data
    {
      hide Pack, FieldOk, FieldsOk, PackAll;
      ok := true;
      NoFields(fs);
      for k := 0 to |fs|
        invariant ok && FieldsOk(fs[..k]) && data == old(data) + PackAll(fs[..k])
      {
        NextField(fs, k);
        if !FieldOk(fs[k]) {
          return false;
        }
        Write(Pack(fs[k]));
      }
      assert fs[..|fs|] == fs;
    }

    /** write_header, for versions up to 2, with the digest id. */
    method WriteHeader(a: Args, id: seq<Byte>) returns (err: Option<Error>)
      requires PageSizeOk(a.pageSize) && a.version < 3 && data == []
      modifies this
      ensures err.Some? ==> Header(a, id) == Err(err.value)
      ensures err.None? ==> Header(a, id) == Ok(data)
    {
      hide FieldOk, PackAll, CommonFields, DtboFields, Padding;
      var first, rest := FieldsBeforeDtb(a, id), DtbFields(a);
      var ok := WriteFields(first);
      if !ok {
        return Some(StructError);
      }
      assert data == PackAll(first);
      NoFields(rest);
      assert rest[..0] == [];
      if a.version > 1 {
        if FileSize(a.dtb) == 0 {
          return Some(EmptyDtb);
        }
        ok := WriteFields(rest);
        if !ok {
          assert FieldsOk(first + rest) ==> FieldsOk(rest) by {
            SuffixOk(first, rest);
          }
          return Some(StructError);
        }
      }
      PackAllJoins(first, rest);
      assert data == PackAll(Fields(a, id));
      PadFile(a.pageSize);
      err := None;
    }

    /** write_data, for versions up to 2. */
    method WriteData(a: Args)
      requires PageSizeOk(a.pageSize) && a.version < 3
      modifies this
      ensures data == AppendedAll(old(data), Files(a), a.pageSize)
    {
      ghost var start, fs, p := data, Files(a), a.pageSize;
      NextFile(start, fs, 0, p);
      NextFile(start, fs, 1, p);
      NextFile(start, fs, 2, p);
      WritePaddedFile(a.kernel, a.pageSize);
      WritePaddedFile(a.ramdisk, a.pageSize);
      WritePaddedFile(a.second, a.pageSize);
      assert data == AppendedAll(start, fs[..3], p);
      if a.version > 0 && a.version < 3 {
        NextFile(start, fs, 3, p);
        WritePaddedFile(a.recoveryDtbo, a.pageSize);
      }
      if a.version == 2 {
        NextFile(start, fs, 4, p);
        WritePaddedFile(a.dtb, a.pageSize);
      }
      assert fs[..|fs|] == fs;
    }

    /** The part of main that writes a boot image. */
    method WriteImage(a: Args, id: seq<Byte>) returns (err: Option<Error>)
      requires PageSizeOk(a.pageSize) && a.version < 3 && data == []
      modifies this
      ensures err.Some? ==> Image(a, id) == Err(err.value)
      ensures err.None? ==> Image(a, id) == Ok(data)
    {
      err := WriteHeader(a, id);
      if err.None? {
        WriteData(a);
      }
    }
  }

  lemma NextFile(data: seq<Byte>, files: seq<Option<seq<Byte>>>, k: nat, p: nat)
    requires PageSizeOk(p) && k < |files|
    ensures files[..0] == []
    ensures AppendedAll(data, files[..k + 1], p) == Appended(AppendedAll(data, files[..k], p), files[k], p)
  {
    assert files[..k + 1][..k] == files[..k];
  }
}
