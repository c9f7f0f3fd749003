/**
 The shell lines of a push, read back: cut at its quotes, each line is the file operation it was
 rendered from.
 */
module TransferText {
  import opened Bytes
  import opened Options
  import opened Sequences
  import opened Base64
  import opened Transfer

  /** The pieces of a line between its single quotes. */
  function Pieces(s: string): seq<string>
  {
    if s == [] then [[]]
    else if s[0] == '\'' then [[]] + Pieces(s[1..])
    else
      var rest := Pieces(s[1..]);
      if rest == [] then [[s[0]]] else [[s[0]] + rest[0]] + rest[1..]
  }

  /** What a line does, read by its pieces as a shell would. */
  function Read(line: string): Option<Command>
  {
    var p := Pieces(line);
    if |p| == 3 && p[0] == ": > " && p[2] == [] then Some(Truncate(p[1]))
    else if |p| == 5 && p[0] == "printf %s " && p[2] == " >> " && p[4] == [] then
      Some(Append(Spelled(p[1]), p[3]))
    else if |p| == 7 && p[0] == "base64 -d " && p[2] == " > " && p[4] == " && rm -f " && p[5] == p[1] && p[6] == [] then
      Some(DecodeInto(p[1], p[3]))
    else None
  }

  lemma {:induction false} PiecesTake(a: string, rest: string)
    requires '\'' !in a
    ensures Pieces(a + "'" + rest) == [a] + Pieces(rest)
  {
    var s := a + "'" + rest;
    if a == [] {
      assert s[1..] == rest;
    } else {
      assert s[1..] == a[1..] + "'" + rest && s[0] == a[0];
      PiecesTake(a[1..], rest);
      assert [a[0]] + a[1..] == a;
    }
  }

  lemma PiecesOfNothing()
    ensures Pieces([]) == [[]]
  {
  }

  lemma ReadTruncate(file: string)
    requires '\'' !in file
    ensures Read(Render(Truncate(file))) == Some(Truncate(file))
  {
    hide Pieces;
    assert Render(Truncate(file)) == ": > " + "'" + (file + "'" + []);
    PiecesTake(": > ", file + "'" + []);
    PiecesTake(file, []);
    PiecesOfNothing();
    assert Pieces(Render(Truncate(file))) == [": > ", file, []];
  }

  lemma ReadAppend(payload: seq<byte>, file: string)
    requires '\'' !in Printed(payload) && '\'' !in file && forall i :: 0 <= i < |payload| ==> payload[i] < 128
    ensures Read(Render(Append(payload, file))) == Some(Append(payload, file))
  {
    hide Pieces;
    var text := Printed(payload);
    var r2 := " >> " + "'" + (file + "'" + []);
    var r1 := text + "'" + r2;
    assert Render(Append(payload, file)) == "printf %s " + "'" + r1;
    PiecesTake("printf %s ", r1);
    PiecesTake(text, r2);
    PiecesTake(" >> ", file + "'" + []);
    PiecesTake(file, []);
    PiecesOfNothing();
    assert Pieces(Render(Append(payload, file))) == ["printf %s ", text, " >> ", file, []];
    assert Spelled(text) == payload;
  }

  lemma ReadDecode(source: string, file: string)
    requires '\'' !in source && '\'' !in file
    ensures Read(Render(DecodeInto(source, file))) == Some(DecodeInto(source, file))
  {
    hide Pieces;
    var r4 := source + "'" + [];
    var r3 := " && rm -f " + "'" + r4;
    var r2 := file + "'" + r3;
    var r1 := " > " + "'" + r2;
    var r0 := source + "'" + r1;
    assert Render(DecodeInto(source, file)) == "base64 -d " + "'" + r0;
    PiecesTake("base64 -d ", r0);
    PiecesTake(source, r1);
    PiecesTake(" > ", r2);
    PiecesTake(file, r3);
    PiecesTake(" && rm -f ", r4);
    PiecesTake(source, []);
    PiecesOfNothing();
    assert Pieces(Render(DecodeInto(source, file))) == ["base64 -d ", source, " > ", file, " && rm -f ", source, []];
  }

  /** Every line of an accepted plan, read back from its text, is the command planned. */
  lemma LinesReadBack(data: seq<byte>, path: string, maxBytes: nat, digest: Digest)
    ensures var r := PushPlan(data, path, maxBytes, digest);
            r.Ok? ==> forall c :: c in r.value.commands ==> Read(Render(c)) == Some(c)
  {
    hide Chunks, Encoded, Render, RenderVerify, Read;
    var r := PushPlan(data, path, maxBytes, digest);
    if r.Ok? {
      var file, chunks := Scratch(path), Chunks(Encoded(data), CHUNK_BYTES);
      ScratchQuotable(path);
      ReadTruncate(file);
      ReadDecode(file, path);
      AppendsCarry(chunks, file);
      forall c | c in r.value.commands && c.Append? ensures Read(Render(c)) == Some(c) {
        assert c.file == file;
        PayloadQuotable(data, c.payload);
        PayloadIsAscii(data, c.payload);
        ReadAppend(c.payload, file);
      }
    }
  }

  lemma PayloadIsAscii(data: seq<byte>, chunk: seq<byte>)
    requires chunk in Chunks(Encoded(data), CHUNK_BYTES)
    ensures forall i :: 0 <= i < |chunk| ==> chunk[i] < 128
  {
    hide Chunks, Encoded;
    EncodedIsVisible(data);
    ChunkOfBytes(Encoded(data), CHUNK_BYTES, chunk);
    forall i | 0 <= i < |chunk| ensures chunk[i] < 128 {
      assert chunk[i] in chunk && chunk[i] in Encoded(data);
      var j :| 0 <= j < |Encoded(data)| && Encoded(data)[j] == chunk[i];
      assert Visible(Encoded(data)[j]);
    }
  }

  /** And the line that asks for the digest names the file twice, for either tool. */
  lemma VerifyReadsBack(path: string)
    requires '\'' !in path
    ensures Pieces(RenderVerify(path)) == ["sha256sum ", path, " 2>/dev/null || sha256 ", path, []]
  {
    hide Pieces;
    var r1 := " 2>/dev/null || sha256 " + "'" + (path + "'" + []);
    assert RenderVerify(path) == "sha256sum " + "'" + (path + "'" + r1);
    PiecesTake("sha256sum ", path + "'" + r1);
    PiecesTake(path, r1);
    PiecesTake(" 2>/dev/null || sha256 ", path + "'" + []);
    PiecesTake(path, []);
    PiecesOfNothing();
  }
}
