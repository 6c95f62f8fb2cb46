/** NUL-terminated buffers and the in-place surgery of `strext.c`. */
module StrExt {
  import opened ExprMachine

  function TrimLeft(s: string): string {
    if s != "" && IsBlank(s[0]) then TrimLeft(s[1..]) else s
  }

  function TrimRight(s: string): string {
    if s != "" && IsBlank(s[|s| - 1]) then TrimRight(s[..|s| - 1]) else s
  }

  /** The text of a buffer is what stands before its first NUL. */
  class Str {
    var buf: array<char>
    ghost var len: nat

    ghost predicate Valid()
      reads this, buf
    {
      len < buf.Length && buf[len] == '\0' && forall k :: 0 <= k < len ==> buf[k] != '\0'
    }

    ghost function Text(): string
      requires Valid()
      reads this, buf
    {
      buf[..len]
    }

    /** strdup. */
    constructor (s: string)
      requires '\0' !in s
      ensures Valid() && Text() == s && fresh(buf)
    {
      var b := new char[|s| + 1];
      forall k | 0 <= k < |s| { b[k] := s[k]; }
      b[|s|] := '\0';
      buf := b;
      len := |s|;
    }

    method Strlen() returns (n: nat)
      requires Valid()
      ensures n == len
    {
      n := 0;
      while buf[n] != '\0'
        invariant n <= len
        decreases len - n
      {
        n := n + 1;
      }
    }

    /** A copy of the text from `at` on. */
    method Tail(at: nat) returns (t: string)
      requires Valid() && at <= len
      ensures t == Text()[at..]
    {
      var n := Strlen();
      t := buf[at..n];
    }

    /** memcpy into the buffer. */
    method Write(at: nat, s: string)
      requires at + |s| <= buf.Length
      modifies buf
      ensures buf[..] == old(buf[..at]) + s + old(buf[at + |s|..])
    {
      var k := 0;
      while k < |s|
        invariant k <= |s|
        invariant buf[..] == old(buf[..at]) + s[..k] + old(buf[at + k..])
      {
        buf[at + k] := s[k];
        k := k + 1;
      }
    }

    /** realloc: the common prefix stays. */
    method Resize(size: nat)
      modifies this`buf
      ensures buf.Length == size && fresh(buf)
      ensures forall k :: 0 <= k < size && k < old(buf).Length ==> buf[k] == old(buf[k])
    {
      var b := new char[size];
      forall k | 0 <= k < size && k < buf.Length { b[k] := buf[k]; }
      buf := b;
    }

    /** Ends the text at `n`. */
    method Terminate(n: nat, ghost t: string)
      requires n == |t| < buf.Length && buf[..n] == t && '\0' !in t
      modifies `len, buf
      ensures Valid() && Text() == t
    {
      forall k | 0 <= k < n ensures buf[k] != '\0' { assert buf[..n][k] == t[k]; }
      buf[n] := '\0';
      len := n;
      assert buf[..n] == t;
    }

    lemma NoNul()
      requires Valid()
      ensures '\0' !in Text()
    {
    }

    /** strins. */
    method Insert(s: string, at: int)
      requires Valid() && '\0' !in s
      modifies this, buf
      ensures Valid() && (buf == old(buf) || fresh(buf))
      ensures Text() == if 0 <= at <= |old(Text())| then old(Text())[..at] + s + old(Text())[at..] else old(Text())
    {
      var n := Strlen();
      if at < 0 || at > n { return; }
      if |s| == 0 { assert Text()[..at] + s + Text()[at..] == Text(); return; }
      InsertAt(s, at, n);
    }

    method InsertAt(s: string, at: nat, n: nat)
      requires Valid() && '\0' !in s && at <= n == len
      modifies this, buf
      ensures Valid() && fresh(buf)
      ensures Text() == old(Text())[..at] + s + old(Text())[at..]
    {
      ghost var text := Text();
      NoNul();
      Grow(n + |s| + 1);
      var saved := Tail(at);
      WriteTwo(at, s, saved, text[..at]);
      Terminate(n + |s|, text[..at] + s + text[at..]);
    }

    /** realloc for more. */
    method Grow(size: nat)
      requires Valid() && size > len
      modifies this`buf
      ensures Valid() && Text() == old(Text()) && fresh(buf) && buf.Length == size
    {
      Resize(size);
    }

    /** The text and what followed its place. */
    method WriteTwo(at: nat, s: string, saved: string, ghost lead: string)
      requires at + |s| + |saved| <= buf.Length && buf[..at] == lead
      modifies buf
      ensures buf[..at + |s| + |saved|] == lead + s + saved
    {
      Write(at, s);
      assert buf[..at + |s|] == lead + s;
      Write(at + |s|, saved);
    }

    /** strcut: removes `count` characters from `start` on, if they are there. */
    method Cut(start: int, count: int)
      requires Valid()
      modifies this, buf
      ensures Valid() && buf == old(buf)
      ensures Text() ==
        if start == 0 && count == 0 then ""
        else if start < 0 || count <= 0 || start + count > |old(Text())| then old(Text())
        else old(Text())[..start] + old(Text())[start + count..]
    {
      var n := Strlen();
      if start < 0 || start > n { return; }
      var end := start + count;
      if start == 0 && end == 0 {
        buf[0] := '\0';
        len := 0;
        return;
      }
      if count <= 0 || end > n { return; }
      CutAt(start, end, n);
    }

    method CutAt(start: nat, end: nat, n: nat)
      requires Valid() && start < end <= n == len
      modifies `len, buf
      ensures Valid() && Text() == old(Text())[..start] + old(Text())[end..]
    {
      ghost var text := Text();
      NoNul();
      var saved := Tail(end);
      Write(start, saved);
      assert buf[..start + |saved|] == text[..start] + text[end..];
      Terminate(start + |saved|, text[..start] + text[end..]);
    }
  
    /** strclean: blanks go at both ends. */
    method Clean()
      requires Valid()
      modifies this, buf
      ensures Valid() && buf == old(buf)
      ensures Text() == TrimRight(TrimLeft(old(Text())))
    {
      while IsBlank(buf[0])
        invariant Valid() && buf == old(buf) && TrimLeft(Text()) == TrimLeft(old(Text()))
        decreases len
      {
        DropFirst();
      }
      ghost var left := Text();
      var n := Strlen();
      if n == 0 { return; }
      while IsBlank(buf[n - 1])
        invariant 0 < n == len && Valid() && buf == old(buf) && TrimRight(Text()) == TrimRight(left)
        invariant !IsBlank(buf[0])
        decreases n
      {
        ghost var text := Text();
        NoNul();
        assert buf[..n - 1] == text[..n - 1];
        Terminate(n - 1, text[..n - 1]);
        n := n - 1;
      }
    }

    method DropFirst()
      requires Valid() && IsBlank(buf[0])
      modifies this, buf
      ensures Valid() && buf == old(buf) && old(Text()) != "" && Text() == old(Text())[1..]
    {
      ghost var text := Text();
      NoNul();
      assert text[0] == buf[0];
      var rest := Tail(1);
      Write(0, rest);
      assert buf[..|rest|] == text[1..];
      Terminate(|rest|, text[1..]);
    }
  }
}
