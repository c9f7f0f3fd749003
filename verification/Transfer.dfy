/**
 Moving a file over a console (`transfer.rs`): the plan of a push and what running it does to
 the target's files, and a pull that returns bytes only if the target's checksum agrees.

 A command of a plan is the file operation it performs, and renders to a shell line; the SHA-256
 digest is an arbitrary function.
 */
module Transfer {
  import opened Bytes
  import opened Options
  import opened Sequences
  import opened Base64

  datatype Error = TooLarge | BadPath | BadText | Mismatch

  datatype Result<+T> = Ok(value: T) | Err(error: Error)

  /** The digest of some bytes, in hexadecimal. */
  type Digest = seq<byte> -> string

  /** `: > f`, `printf %s p >> f`, and `base64 -d source > f && rm -f source`. */
  datatype Command =
    | Truncate(file: string)
    | Append(payload: seq<byte>, file: string)
    | DecodeInto(source: string, file: string)

  datatype Plan = Plan(path: string, bytes: nat, digest: string, commands: seq<Command>, verify: string, chunks: nat)

  /** The shell line of a command. */
  function Render(c: Command): string
  {
    match c
    case Truncate(file) => ": > " + Quoted(file)
    case Append(payload, file) => "printf %s " + Quoted(Printed(payload)) + " >> " + Quoted(file)
    case DecodeInto(source, file) =>
      "base64 -d " + Quoted(source) + " > " + Quoted(file) + " && rm -f " + Quoted(source)
  }

  /** The line whose output must show the digest. */
  function RenderVerify(path: string): string
  {
    "sha256sum " + Quoted(path) + " 2>/dev/null || sha256 " + Quoted(path)
  }

  function Quoted(s: string): string
  {
    "'" + s + "'"
  }

  function Scratch(path: string): string
  {
    path + ".b64"
  }

  /** A path that would break out of its quotes is refused. */
  predicate Quotable(path: string)
  {
    '\'' !in path && '\n' !in path
  }

  function Appends(chunks: seq<seq<byte>>, file: string): seq<Command>
  {
    if chunks == [] then []
    else Appends(chunks[..|chunks| - 1], file) + [Append(chunks[|chunks| - 1], file)]
  }

  function PushPlan(data: seq<byte>, path: string, maxBytes: nat, digest: Digest): Result<Plan>
  {
    if |data| > maxBytes then Err(TooLarge)
    else if !Quotable(path) then Err(BadPath)
    else
      var chunks := Chunks(Encoded(data), CHUNK_BYTES);
      Ok(Plan(path, |data|, digest(data),
              [Truncate(Scratch(path))] + Appends(chunks, Scratch(path)) + [DecodeInto(Scratch(path), path)],
              RenderVerify(path), |chunks|))
  }

  method PlanPush(data: seq<byte>, path: string, maxBytes: nat, digest: Digest) returns (r: Result<Plan>)
    ensures r == PushPlan(data, path, maxBytes, digest)
  {
    if |data| > maxBytes {
      return Err(TooLarge);
    }
    if '\'' in path || '\n' in path {
      return Err(BadPath);
    }
    var commands := [Truncate(Scratch(path))];
    var chunks := PlanChunks(data);
    for i := 0 to |chunks|
      invariant commands == [Truncate(Scratch(path))] + Appends(chunks[..i], Scratch(path))
    {
      assert chunks[..i + 1][..i] == chunks[..i];
      Assoc([Truncate(Scratch(path))], Appends(chunks[..i], Scratch(path)), [Append(chunks[i], Scratch(path))]);
      commands := commands + [Append(chunks[i], Scratch(path))];
    }
    assert chunks[..|chunks|] == chunks;
    commands := commands + [DecodeInto(Scratch(path), path)];
    r := Ok(Plan(path, |data|, digest(data), commands, RenderVerify(path), |chunks|));
  }

  function Lower(s: string): string
  {
    seq(|s|, i requires 0 <= i < |s| => if 'A' <= s[i] <= 'Z' then s[i] + ('a' - 'A') else s[i])
  }

  predicate Contains(text: string, part: string)
  {
    exists i :: 0 <= i <= |text| && part <= text[i..]
  }

  /** Does the target's own checksum output bear the digest out? */
  predicate Agrees(output: string, digest: string)
  {
    Contains(Lower(output), digest)
  }

  function VerifyPush(plan: Plan, output: string): Result<()>
  {
    if Agrees(output, plan.digest) then Ok(()) else Err(Mismatch)
  }

  function FinishPull(digest: Digest, output: string, text: string): Result<seq<byte>>
  {
    match Decoded(Spelled(Cleaned(text)))
    case None => Err(BadText)
    case Some(data) => if Agrees(output, digest(data)) then Ok(data) else Err(Mismatch)
  }

  // ------------------------------------------------------------------ on the target

  type Files = map<string, seq<byte>>

  /** One command; nothing if it fails. */
  function Execute(files: Files, c: Command): Option<Files>
  {
    match c
    case Truncate(file) => Some(files[file := []])
    case Append(payload, file) => Some(files[file := (if file in files then files[file] else []) + payload])
    case DecodeInto(source, file) =>
      if source !in files || Decoded(files[source]).None? then None
      else Some(files[file := Decoded(files[source]).value] - {source})
  }

  function ExecuteAll(files: Files, commands: seq<Command>): Option<Files>
  {
    if commands == [] then Some(files)
    else
      match ExecuteAll(files, commands[..|commands| - 1])
      case None => None
      case Some(mid) => Execute(mid, commands[|commands| - 1])
  }

  lemma ExecuteOneMore(files: Files, commands: seq<Command>, c: Command)
    ensures ExecuteAll(files, commands + [c])
         == match ExecuteAll(files, commands) case None => None case Some(mid) => Execute(mid, c)
  {
    assert (commands + [c])[..|commands|] == commands;
  }

  /** Truncating and appending leaves the chunks end to end, and no other file touched. */
  lemma {:induction false} AppendsFill(files: Files, chunks: seq<seq<byte>>, file: string)
    ensures ExecuteAll(files, [Truncate(file)] + Appends(chunks, file)) == Some(files[file := Concat(chunks)])
  {
    var first := [Truncate(file)];
    if chunks == [] {
      Unit(first);
      assert [] + first == first;
      ExecuteOneMore(files, [], Truncate(file));
    } else {
      var n := |chunks| - 1;
      AppendsFill(files, chunks[..n], file);
      var before := first + Appends(chunks[..n], file);
      Assoc(first, Appends(chunks[..n], file), [Append(chunks[n], file)]);
      ExecuteOneMore(files, before, Append(chunks[n], file));
      hide ExecuteAll;
      assert files[file := Concat(chunks[..n])][file := Concat(chunks)] == files[file := Concat(chunks)];
    }
  }

  /**
   A push is refused exactly when the file is over the limit or the path cannot be quoted;
   otherwise running its commands leaves the file on the target, the scratch file gone and every
   other file as it was, and no command carries more than 512 bytes.
   */
  lemma PushDelivers(data: seq<byte>, path: string, maxBytes: nat, digest: Digest, files: Files)
    ensures var r := PushPlan(data, path, maxBytes, digest);
            && (r.Ok? <==> |data| <= maxBytes && '\'' !in path && '\n' !in path)
            && (r == Err(TooLarge) <==> |data| > maxBytes)
            && (r.Ok? ==>
                  && ExecuteAll(files, r.value.commands) == Some(files[path := data] - {path + ".b64"})
                  && r.value.path == path && r.value.bytes == |data| && r.value.digest == digest(data)
                  && (forall c :: c in r.value.commands && c.Append? ==> 1 <= |c.payload| <= 512)
                  && |r.value.commands| == r.value.chunks + 2
                  && forall i :: 0 < i < r.value.chunks ==>
                       r.value.commands[i].Append? && |r.value.commands[i].payload| == 512)
  {
    hide Decoded, Encoded, Chunks, Appends, ExecuteAll, RenderVerify, Concat;
    var r := PushPlan(data, path, maxBytes, digest);
    if r.Ok? {
      var file, chunks := Scratch(path), Chunks(Encoded(data), CHUNK_BYTES);
      PayloadsDecode(data);
      AppendsFill(files, chunks, file);
      var fill := [Truncate(file)] + Appends(chunks, file);
      ExecuteOneMore(files, fill, DecodeInto(file, path));
      assert |file| != |path|;
      assert files[file := Concat(chunks)][path := data] - {file} == files[path := data] - {file};
      AppendsCarry(chunks, file);
      AppendsInOrder(chunks, file);
      forall i | 0 < i < |chunks|
        ensures r.value.commands[i].Append? && |r.value.commands[i].payload| == 512
      {
        assert r.value.commands[i] == Appends(chunks, file)[i - 1];
      }
    }
  }

  lemma {:induction false} AppendsInOrder(chunks: seq<seq<byte>>, file: string)
    ensures |Appends(chunks, file)| == |chunks|
    ensures forall i :: 0 <= i < |chunks| ==> Appends(chunks, file)[i] == Append(chunks[i], file)
  {
    if chunks != [] {
      AppendsInOrder(chunks[..|chunks| - 1], file);
    }
  }

  lemma {:induction false} AppendsCarry(chunks: seq<seq<byte>>, file: string)
    ensures forall c :: c in Appends(chunks, file) ==> c.Append? && c.file == file && c.payload in chunks
  {
    if chunks != [] {
      AppendsCarry(chunks[..|chunks| - 1], file);
    }
  }

  // ------------------------------------------------------------------ the text of the commands

  function Quotes(s: string): nat
  {
    if s == [] then 0 else Quotes(s[..|s| - 1]) + if s[|s| - 1] == '\'' then 1 else 0
  }

  lemma {:induction false} QuotesAppend(a: string, b: string)
    ensures Quotes(a + b) == Quotes(a) + Quotes(b)
  {
    if b == [] {
      Unit(a);
    } else {
      var n := |b| - 1;
      assert (a + b)[..|a + b| - 1] == a + b[..n];
      QuotesAppend(a, b[..n]);
    }
  }

  lemma {:induction false} NoQuotes(s: string)
    requires '\'' !in s
    ensures Quotes(s) == 0
  {
    if s != [] {
      NoQuotes(s[..|s| - 1]);
    }
  }

  /** One line, and this many quotes. */
  ghost predicate LineWith(s: string, quotes: nat) {
    '\n' !in s && Quotes(s) == quotes
  }

  lemma JoinLine(a: string, m: nat, b: string, n: nat)
    requires LineWith(a, m) && LineWith(b, n)
    ensures LineWith(a + b, m + n)
  {
    QuotesAppend(a, b);
  }

  lemma PlainLine(s: string)
    requires Quotable(s)
    ensures LineWith(s, 0)
  {
    NoQuotes(s);
  }

  lemma QuotedLine(s: string)
    requires Quotable(s)
    ensures LineWith(Quoted(s), 2)
  {
    OneQuote();
    hide LineWith;
    PlainLine(s);
    JoinLine("'", 1, s, 0);
    JoinLine("'" + s, 1, "'", 1);
  }

  lemma OneQuote()
    ensures LineWith("'", 1)
  {
    assert "'"[..0] == [];
  }

  lemma PayloadQuotable(data: seq<byte>, chunk: seq<byte>)
    requires chunk in Chunks(Encoded(data), CHUNK_BYTES)
    ensures Quotable(Printed(chunk))
  {
    hide Chunks, Encoded;
    EncodedIsQuoteFree(data);
    ChunkOfBytes(Encoded(data), CHUNK_BYTES, chunk);
    var text := Printed(chunk);
    forall i | 0 <= i < |text| ensures text[i] != '\'' && text[i] != '\n' {
      assert chunk[i] in chunk;
    }
  }

  /** A chunk holds bytes of the whole. */
  lemma {:induction false} ChunkOfBytes(s: seq<byte>, n: nat, chunk: seq<byte>)
    requires n > 0 && chunk in Chunks(s, n)
    ensures forall x :: x in chunk ==> x in s
    decreases |s|
  {
    if |s| > n && chunk != s[..n] {
      ChunkOfBytes(s[n..], n, chunk);
    }
  }

  lemma EncodedIsQuoteFree(data: seq<byte>)
    ensures forall x :: x in Encoded(data) ==> x != 39 && x != 10
  {
    EncodedIsVisible(data);
    hide Encoded;
    forall x | x in Encoded(data) ensures x != 39 && x != 10 {
      var i :| 0 <= i < |Encoded(data)| && Encoded(data)[i] == x;
      assert Visible(Encoded(data)[i]);
    }
  }

  /**
   Every command of an accepted plan is one shell line in which the path and the payload stay inside
   their own quotes: no newline, and no quote but those of the command itself.
   */
  lemma CommandsStayQuoted(data: seq<byte>, path: string, maxBytes: nat, digest: Digest)
    ensures var r := PushPlan(data, path, maxBytes, digest);
            r.Ok? ==>
              && LineWith(r.value.verify, 4)
              && forall c :: c in r.value.commands ==>
                   LineWith(Render(c), if c.Truncate? then 2 else if c.Append? then 4 else 6)
  {
    hide Chunks, Encoded, LineWith, Render, RenderVerify;
    var r := PushPlan(data, path, maxBytes, digest);
    if r.Ok? {
      var file, chunks := Scratch(path), Chunks(Encoded(data), CHUNK_BYTES);
      ScratchQuotable(path);
      RenderedLines(path, file);
      AppendsCarry(chunks, file);
      forall c | c in r.value.commands && c.Append? ensures LineWith(Render(c), 4) {
        assert c.file == file;
        PayloadQuotable(data, c.payload);
        RenderedAppend(c.payload, file);
      }
    }
  }

  lemma ScratchQuotable(path: string)
    requires Quotable(path)
    ensures Quotable(Scratch(path))
  {
  }

  lemma RenderedLines(path: string, file: string)
    requires Quotable(path) && Quotable(file)
    ensures LineWith(Render(Truncate(file)), 2)
    ensures LineWith(Render(DecodeInto(file, path)), 6)
    ensures LineWith(RenderVerify(path), 4)
  {
    hide LineWith, Quoted;
    QuotedLine(path);
    QuotedLine(file);
    PlainLine(": > ");
    JoinLine(": > ", 0, Quoted(file), 2);
    var decode := "base64 -d ";
    PlainLine(decode);
    JoinLine(decode, 0, Quoted(file), 2);
    PlainLine(" > ");
    JoinLine(decode + Quoted(file), 2, " > ", 0);
    JoinLine(decode + Quoted(file) + " > ", 2, Quoted(path), 2);
    PlainLine(" && rm -f ");
    JoinLine(decode + Quoted(file) + " > " + Quoted(path), 4, " && rm -f ", 0);
    JoinLine(decode + Quoted(file) + " > " + Quoted(path) + " && rm -f ", 4, Quoted(file), 2);
    PlainLine("sha256sum ");
    JoinLine("sha256sum ", 0, Quoted(path), 2);
    PlainLine(" 2>/dev/null || sha256 ");
    JoinLine("sha256sum " + Quoted(path), 2, " 2>/dev/null || sha256 ", 0);
    JoinLine("sha256sum " + Quoted(path) + " 2>/dev/null || sha256 ", 2, Quoted(path), 2);
  }

  lemma RenderedAppend(payload: seq<byte>, file: string)
    requires Quotable(Printed(payload)) && Quotable(file)
    ensures LineWith(Render(Append(payload, file)), 4)
  {
    hide LineWith, Quoted, Printed;
    var text := Quoted(Printed(payload));
    QuotedLine(Printed(payload));
    QuotedLine(file);
    PlainLine("printf %s ");
    JoinLine("printf %s ", 0, text, 2);
    PlainLine(" >> ");
    JoinLine("printf %s " + text, 2, " >> ", 0);
    JoinLine("printf %s " + text + " >> ", 2, Quoted(file), 2);
  }

  /** However the target wraps its output, a pull returns the file exactly when the target's digest agrees. */
  lemma PullDelivers(digest: Digest, output: string, data: seq<byte>, text: string)
    requires Spaced(text, Printed(Encoded(data)))
    ensures FinishPull(digest, output, text) == if Agrees(output, digest(data)) then Ok(data) else Err(Mismatch)
  {
    hide Decoded, Encoded, Cleaned, Spelled;
    WrappedDecodes(data, text);
  }

  /** What a pull returns has always been checked against the target's digest. */
  lemma PullIsChecked(digest: Digest, output: string, text: string)
    ensures var r := FinishPull(digest, output, text);
            && (r.Ok? ==> Agrees(output, digest(r.value)))
            && (r == Err(BadText) <==> !AllSymbols(BeforePad(Spelled(Cleaned(text)))))
  {
    DecodeFailsIff(0, 0, Spelled(Cleaned(text)));
    hide Cleaned, Spelled, Agrees, AllSymbols, BeforePad, DecodeFrom;
  }

  /**
   A pull never delivers a wrong file: whatever text arrives, if the target's checksum output bears
   out the digest of one file only, that file is returned or none.
   */
  lemma MangledPullFails(digest: Digest, output: string, text: string, data: seq<byte>)
    requires forall other :: Agrees(output, digest(other)) ==> other == data
    ensures FinishPull(digest, output, text) in {Ok(data), Err(BadText), Err(Mismatch)}
    ensures FinishPull(digest, output, text) == Ok(data) <==>
            Agrees(output, digest(data)) && Decoded(Spelled(Cleaned(text))) == Some(data)
  {
    hide Decoded, Cleaned, Spelled, Agrees;
  }

  /** A file pushed and pulled back is the file, if the target reports its own digest. */
  lemma PushThenPull(data: seq<byte>, path: string, maxBytes: nat, digest: Digest, files: Files, output: string, text: string)
    requires |data| <= maxBytes && Quotable(path)
    ensures var after := ExecuteAll(files, PushPlan(data, path, maxBytes, digest).value.commands);
            && after.Some? && path in after.value
            && (Agrees(output, digest(after.value[path])) && Spaced(text, Printed(Encoded(after.value[path]))) ==>
                  && VerifyPush(PushPlan(data, path, maxBytes, digest).value, output) == Ok(())
                  && FinishPull(digest, output, text) == Ok(data))
  {
    PushDelivers(data, path, maxBytes, digest, files);
    hide ExecuteAll, Chunks, Encoded, FinishPull, Agrees, Spaced, Appends;
    assert |Scratch(path)| != |path|;
    if Spaced(text, Printed(Encoded(data))) {
      PullDelivers(digest, output, data, text);
    }
  }
}
