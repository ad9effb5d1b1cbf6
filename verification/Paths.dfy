/** The value object that names things in a user's tree (domain/path.py). */
module Paths {
  import opened Common

  datatype Path = Path(segments: seq<string>) {
    predicate IsRoot() { segments == [] }

    function Parent(): Path { if segments == [] then this else Path(segments[..|segments| - 1]) }

    predicate IsAncestorOf(other: Path) {
      |other.segments| > |segments| && other.segments[..|segments|] == segments
    }
  }

  const MAX_NAME_LENGTH := 255

  predicate IsControl(c: char) { (c as int) < 32 || (c as int) == 127 }

  predicate IsValidName(name: string) {
    name != "" && name != ".." && |name| <= MAX_NAME_LENGTH && forall i | 0 <= i < |name| :: !IsControl(name[i])
  }

  /** The pieces between the separators; always at least one. */
  function Split(raw: string): (r: seq<string>)
    ensures r != []
  {
    if raw == "" then [""] else
    var rest := Split(raw[1..]);
    if raw[0] == '/' then [""] + rest else [[raw[0]] + rest[0]] + rest[1..]
  }

  function Join(segments: seq<string>): string {
    if segments == [] then "" else if |segments| == 1 then segments[0] else segments[0] + "/" + Join(segments[1..])
  }

  predicate IsNoise(chunk: string) { chunk == "" || chunk == "." }

  /** Appends the chunks to the base, dropping the noise; one bad name rejects the whole path. */
  function Normalise(base: seq<string>, chunks: seq<string>): Result<seq<string>>
    decreases |chunks|
  {
    if chunks == [] then Ok(base)
    else if IsNoise(chunks[0]) then Normalise(base, chunks[1..])
    else if !IsValidName(chunks[0]) then Err(InvalidPath)
    else Normalise(base + [chunks[0]], chunks[1..])
  }

  predicate IsAbsolute(raw: string) { raw != "" && raw[0] == '/' }

  function Parse(raw: string, cwd: Option<Path>): Result<Path> {
    if raw == "" || (!IsAbsolute(raw) && cwd.None?) then Err(InvalidPath) else
    match Normalise(if IsAbsolute(raw) then [] else cwd.value.segments, Split(raw))
    case Ok(segments) => Ok(Path(segments))
    case Err(e) => Err(e)
  }

  method ParsePath(raw: string, cwd: Option<Path>) returns (r: Result<Path>)
    ensures r == Parse(raw, cwd)
  {
    if raw == "" {
      return Err(InvalidPath);
    }
    var base: seq<string> := [];
    if !IsAbsolute(raw) {
      if cwd.None? {
        return Err(InvalidPath);
      }
      base := cwd.value.segments;
    }
    var parts := base;
    var chunks := Split(raw);
    for i := 0 to |chunks|
      invariant Normalise(parts, chunks[i..]) == Normalise(base, chunks)
    {
      var chunk := chunks[i];
      assert chunks[i..][1..] == chunks[i + 1..];
      if chunk == "" || chunk == "." {
        continue;
      }
      if !IsValidName(chunk) {
        return Err(InvalidPath);
      }
      parts := parts + [chunk];
    }
    return Ok(Path(parts));
  }

  function Child(p: Path, name: string): Result<Path> {
    if IsValidName(name) then Ok(Path(p.segments + [name])) else Err(InvalidPath)
  }

  function Str(p: Path): string { "/" + Join(p.segments) }

  // ----- Printing and parsing undo each other ------------------------------------

  /** A name that survives being printed and split again. */
  predicate IsClean(name: string) { IsValidName(name) && name != "." && '/' !in name }

  predicate AllClean(segments: seq<string>) { forall i | 0 <= i < |segments| :: IsClean(segments[i]) }

  /** Putting a character before some chunks. */
  function Prepended(c: char, chunks: seq<string>): seq<string>
    requires chunks != []
  {
    if c == '/' then [""] + chunks else [[c] + chunks[0]] + chunks[1..]
  }

  lemma PrependedFirst(c: char, chunks: seq<string>, more: seq<string>)
    requires chunks != []
    ensures Prepended(c, chunks + more) == Prepended(c, chunks) + more
  {
    assert (chunks + more)[1..] == chunks[1..] + more;
  }

  lemma SplitIsPrepended(raw: string)
    requires raw != ""
    ensures Split(raw) == Prepended(raw[0], Split(raw[1..]))
  {
  }

  lemma {:induction false} SplitOfConcat(a: string, b: string)
    ensures Split(a + "/" + b) == Split(a) + Split(b)
  {
    var whole := a + "/" + b;
    if a == "" {
      assert whole[0] == '/' && whole[1..] == b;
    } else {
      SplitOfConcat(a[1..], b);
      assert whole[0] == a[0] && whole[1..] == a[1..] + "/" + b;
      SplitIsPrepended(whole);
      SplitIsPrepended(a);
      PrependedFirst(a[0], Split(a[1..]), Split(b));
    }
  }

  lemma {:induction false} SplitOfName(name: string)
    requires '/' !in name
    ensures Split(name) == [name]
  {
    if name != "" {
      assert name == [name[0]] + name[1..];
      SplitOfName(name[1..]);
    }
  }

  lemma {:induction false} SplitOfJoin(segments: seq<string>)
    requires segments != [] && forall i :: 0 <= i < |segments| ==> '/' !in segments[i]
    ensures Split(Join(segments)) == segments
  {
    SplitOfName(segments[0]);
    if |segments| > 1 {
      SplitOfJoin(segments[1..]);
      SplitOfConcat(segments[0], Join(segments[1..]));
      assert segments == [segments[0]] + segments[1..];
    }
  }

  lemma {:induction false} ChunksHaveNoSeparator(raw: string)
    ensures forall i :: 0 <= i < |Split(raw)| ==> '/' !in Split(raw)[i]
  {
    if raw != "" { ChunksHaveNoSeparator(raw[1..]); }
  }

  lemma {:induction false} NormaliseKeepsClean(base: seq<string>, chunks: seq<string>)
    requires AllClean(base) && forall i :: 0 <= i < |chunks| ==> '/' !in chunks[i]
    ensures Normalise(base, chunks).Ok? ==> AllClean(Normalise(base, chunks).value)
    decreases |chunks|
  {
    if chunks != [] {
      if IsNoise(chunks[0]) {
        NormaliseKeepsClean(base, chunks[1..]);
      } else if IsValidName(chunks[0]) {
        NormaliseKeepsClean(base + [chunks[0]], chunks[1..]);
      }
    }
  }

  lemma {:induction false} NormaliseOfClean(base: seq<string>, chunks: seq<string>)
    requires AllClean(chunks)
    ensures Normalise(base, chunks) == Ok(base + chunks)
    decreases |chunks|
  {
    if chunks == [] {
      assert base + chunks == base;
    } else {
      NormaliseOfClean(base + [chunks[0]], chunks[1..]);
      assert base + [chunks[0]] + chunks[1..] == base + chunks;
    }
  }

  /** The chunks that name something. */
  function Names(chunks: seq<string>): seq<string> {
    if chunks == [] then [] else (if IsNoise(chunks[0]) then [] else [chunks[0]]) + Names(chunks[1..])
  }

  lemma {:induction false} NormalisedExactly(base: seq<string>, chunks: seq<string>)
    ensures Normalise(base, chunks).Ok? <==> forall c :: c in chunks ==> IsNoise(c) || IsValidName(c)
    ensures Normalise(base, chunks).Ok? ==> Normalise(base, chunks).value == base + Names(chunks)
    decreases |chunks|
  {
    if chunks == [] {
      assert base + [] == base;
    } else {
      assert chunks == [chunks[0]] + chunks[1..];
      var first := if IsNoise(chunks[0]) then [] else [chunks[0]];
      NormalisedExactly(base + first, chunks[1..]);
      assert base + first + Names(chunks[1..]) == base + (first + Names(chunks[1..]));
      assert base + [] == base;
    }
  }

  /** Parse accepts exactly the texts that are not empty, absolute or have a directory to start from, and
      hold nothing but names, dots and repeated separators; it gives the names in order. */
  lemma ParseAcceptsExactly(raw: string, cwd: Option<Path>)
    ensures Parse(raw, cwd).Ok? <==>
            && raw != "" && (IsAbsolute(raw) || cwd.Some?)
            && forall c :: c in Split(raw) ==> c == "" || c == "." || IsValidName(c)
    ensures Parse(raw, cwd).Ok? ==>
              Parse(raw, cwd).value.segments == (if IsAbsolute(raw) then [] else cwd.value.segments) + Names(Split(raw))
  {
    if raw != "" && (IsAbsolute(raw) || cwd.Some?) {
      NormalisedExactly(if IsAbsolute(raw) then [] else cwd.value.segments, Split(raw));
    }
  }

  lemma NoControlsExactly(name: string)
    ensures (forall i :: 0 <= i < |name| ==> !IsControl(name[i])) <==> forall c :: c in name ==> 32 <= c as int && c as int != 127
  {
    if forall c :: c in name ==> 32 <= c as int && c as int != 127 {
      forall i | 0 <= i < |name| ensures !IsControl(name[i]) { assert name[i] in name; }
    }
  }

  /** A single chunk is a name exactly if it is not the parent, has at most 255 characters and no control
      character among them; parent references are refused, not followed. */
  lemma NameAcceptedExactly(name: string)
    requires name != "" && name != "." && '/' !in name
    ensures Parse("/" + name, None) == Ok(Path([name])) <==>
            name != ".." && |name| <= 255 && forall c :: c in name ==> 32 <= c as int && c as int != 127
    ensures Parse("/" + name, None).Ok? ==> Parse("/" + name, None) == Ok(Path([name]))
  {
    var raw := "/" + name;
    assert raw[1..] == name;
    SplitOfName(name);
    assert Split(raw) == ["", name];
    assert Names(["", name]) == [] + Names([name]) && Names([name]) == [name] + Names([]);
    ParseAcceptsExactly(raw, None);
    NoControlsExactly(name);
    assert name in Split(raw);
    assert [] + Names(Split(raw)) == [name];
  }

  /** What parse produces is clean, whatever it was given. */
  lemma ParsedIsClean(raw: string, cwd: Option<Path>)
    requires cwd.Some? ==> AllClean(cwd.value.segments)
    ensures Parse(raw, cwd).Ok? ==> AllClean(Parse(raw, cwd).value.segments)
  {
    ChunksHaveNoSeparator(raw);
    if raw != "" {
      if IsAbsolute(raw) { NormaliseKeepsClean([], Split(raw)); }
      else if cwd.Some? { NormaliseKeepsClean(cwd.value.segments, Split(raw)); }
    }
  }

  lemma PrintedChunks(p: Path)
    requires AllClean(p.segments)
    ensures Normalise([], Split(Str(p))) == Ok(p.segments)
  {
    assert Str(p) == "" + "/" + Join(p.segments);
    SplitOfConcat("", Join(p.segments));
    if p.segments == [] {
      assert Split(Str(p)) == [""] + [""];
      assert Normalise([], [""] + [""]) == Normalise([], [""]) == Normalise([], []);
    } else {
      SplitOfJoin(p.segments);
      assert Split(Str(p)) == [""] + p.segments;
      NormaliseOfClean([], p.segments);
      assert [] + p.segments == p.segments;
    }
  }

  /** A path is read back from its printed form exactly when all its names are clean. */
  lemma ParseUndoesPrint(p: Path, cwd: Option<Path>)
    ensures Parse(Str(p), cwd) == Ok(p) <==> AllClean(p.segments)
  {
    if AllClean(p.segments) { PrintedChunks(p); }
    if Parse(Str(p), cwd) == Ok(p) { ParsedIsClean(Str(p), None); }
  }

  /** Parsing is idempotent through printing, on any accepted string. */
  lemma ParseIsIdempotent(raw: string, cwd: Option<Path>, other: Option<Path>)
    requires cwd.Some? ==> AllClean(cwd.value.segments)
    requires Parse(raw, cwd).Ok?
    ensures Parse(Str(Parse(raw, cwd).value), other) == Parse(raw, cwd)
  {
    ParsedIsClean(raw, cwd);
    ParseUndoesPrint(Parse(raw, cwd).value, other);
  }

  /** `child` checks less than `parse`: a name that is "." or contains a separator is accepted and
      then lost or torn apart when the path is printed and read back; every other name survives. */
  lemma ChildSurvivesExactlyWhenClean(p: Path, name: string)
    requires AllClean(p.segments) && IsValidName(name)
    ensures Child(p, name).Ok?
    ensures Parse(Str(Child(p, name).value), None) == Child(p, name) <==> name != "." && '/' !in name
  {
    var c := Child(p, name).value;
    ParseUndoesPrint(c, None);
    assert c.segments[|p.segments|] == name;
    if IsClean(name) {
      forall i | 0 <= i < |c.segments| ensures IsClean(c.segments[i]) {
        if i < |p.segments| { assert c.segments[i] == p.segments[i]; }
      }
    }
  }

  // ----- Resolving a relative path -------------------------------------------------

  lemma {:induction false} NormaliseOfConcat(base: seq<string>, a: seq<string>, b: seq<string>)
    ensures Normalise(base, a + b)
         == (match Normalise(base, a) case Ok(mid) => Normalise(mid, b) case Err(e) => Err(e))
    decreases |a|
  {
    if a == [] {
      assert a + b == b;
    } else {
      assert (a + b)[1..] == a[1..] + b;
      NormaliseOfConcat(base, a[1..], b);
      NormaliseOfConcat(base + [a[0]], a[1..], b);
    }
  }

  /** Resolving a relative path against a directory is parsing the two joined by a separator. */
  lemma RelativeIsJoined(dir: string, raw: string)
    requires IsAbsolute(dir) && raw != "" && !IsAbsolute(raw) && Parse(dir, None).Ok?
    ensures Parse(raw, Some(Parse(dir, None).value)) == Parse(dir + "/" + raw, None)
  {
    SplitOfConcat(dir, raw);
    NormaliseOfConcat([], Split(dir), Split(raw));
  }

  // ----- Ancestry ------------------------------------------------------------

  /** One path is an ancestor of another exactly when something hangs in between. */
  lemma AncestorIsStrictPrefix(p: Path, q: Path)
    ensures p.IsAncestorOf(q) <==> exists rest: seq<string> :: rest != [] && q.segments == p.segments + rest
  {
    if p.IsAncestorOf(q) {
      assert q.segments == p.segments + q.segments[|p.segments|..];
    }
    forall rest: seq<string> | rest != [] && q.segments == p.segments + rest ensures p.IsAncestorOf(q) {
      assert q.segments[..|p.segments|] == p.segments;
    }
  }

  /** Ancestry is a strict order, and the ancestors of a path form a chain. */
  lemma AncestryIsAnOrder(p: Path, q: Path, r: Path)
    ensures !p.IsAncestorOf(p)
    ensures p.IsAncestorOf(q) && q.IsAncestorOf(r) ==> p.IsAncestorOf(r)
    ensures p.IsAncestorOf(r) && q.IsAncestorOf(r) ==> p == q || p.IsAncestorOf(q) || q.IsAncestorOf(p)
    ensures !q.IsRoot() ==> (p.IsAncestorOf(q) <==> p == q.Parent() || p.IsAncestorOf(q.Parent()))
  {
    if p.IsAncestorOf(q) && q.IsAncestorOf(r) {
      assert r.segments[..|p.segments|] == r.segments[..|q.segments|][..|p.segments|];
    }
    if p.IsAncestorOf(r) && q.IsAncestorOf(r) {
      if |p.segments| <= |q.segments| {
        assert q.segments[..|p.segments|] == r.segments[..|q.segments|][..|p.segments|] == p.segments;
      } else {
        assert p.segments[..|q.segments|] == r.segments[..|p.segments|][..|q.segments|] == q.segments;
      }
    }
    if !q.IsRoot() && |p.segments| < |q.segments| {
      assert q.Parent().segments[..|p.segments|] == q.segments[..|p.segments|];
    }
  }
}
