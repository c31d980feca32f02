/**
 The path part of URL-identifier canonicalisation: removal of dot segments (RFC 3986,
 section 5.2.4), normalisation of percent escapes (RFC 3986, section 6.2.2.2), and the
 pipeline of the two.
 */
module UrlPath {
  import opened Text

  // ---- dot segments: the reference evaluation, on a stack of segments ----

  predicate IsDot(seg: string) { seg == "." || seg == ".." }

  predicate NoDot(segs: seq<string>) { forall i :: 0 <= i < |segs| ==> !IsDot(segs[i]) }

  /** Leaving a directory; the root, and a relative path's first segment, become the root. */
  function Pop(stack: seq<string>): (r: seq<string>)
    ensures r != []
  {
    if |stack| > 1 then stack[..|stack| - 1] else [""]
  }

  /** Walk the segments after the first one, each entered, skipped or left. */
  function Walk(segs: seq<string>, stack: seq<string>): seq<string>
  {
    if segs == [] then stack
    else if segs[0] == "." then
      if |segs| == 1 then stack + [""] else Walk(segs[1..], stack)
    else if segs[0] == ".." then
      if |segs| == 1 then Pop(stack) + [""] else Walk(segs[1..], Pop(stack))
    else Walk(segs[1..], stack + [segs[0]])
  }

  /** Leading dot segments of a relative path vanish; the first other segment starts the walk. */
  function Resolve(segs: seq<string>): seq<string>
  {
    if segs == [] then [""]
    else if !IsDot(segs[0]) then Walk(segs[1..], [segs[0]])
    else if |segs| == 1 then [""]
    else Resolve(segs[1..])
  }

  /** RFC 3986, section 5.2.4, as an evaluation of the path's segments. */
  function Reference(path: string): string { Join(Resolve(Split(path, '/')), '/') }

  // ---- dot segments: the implementation ----

  predicate HasPrefix(prefix: string, s: string) { prefix <= s }

  /** strings.LastIndexByte for '/', or -1. */
  function LastSlash(s: string): (i: int)
    ensures -1 <= i < |s|
    ensures i >= 0 ==> s[i] == '/'
    ensures forall k :: i < k < |s| ==> s[k] != '/'
  {
    if s == "" then -1
    else if s[|s| - 1] == '/' then |s| - 1
    else LastSlash(s[..|s| - 1])
  }

  function TruncateLastSegment(s: string): string
  {
    var i := LastSlash(s);
    if i >= 0 then s[..i] else ""
  }

  /** The rest of the input continues below a segment already taken. */
  predicate Absolute(rest: string) { rest == "" || rest[0] == '/' }

  /** What the reference still has to compute, with `stack` standing for the output so far. */
  function Pending(rest: string, stack: seq<string>): seq<string>
  {
    if Absolute(rest) then Walk(Split(rest, '/')[1..], stack) else Resolve(Split(rest, '/'))
  }

  /** The end of the first segment of a non-empty rest, with its leading slash if it has one. */
  function SegmentEnd(rest: string): (end: nat)
    requires rest != ""
    ensures 0 < end <= |rest|
    ensures Absolute(rest[end..])
    ensures '/' !in rest[1..end]
  {
    1 + Find(rest[1..], '/')
  }

  lemma SplitRooted(s: string)
    ensures Split("/" + s, '/')[1..] == Split(s, '/')
  {
    assert "/" + s == "" + "/" + s;
    SplitCons("", s, '/');
  }

  lemma SplitSegment(seg: string, below: string)
    requires '/' !in seg && Absolute(below)
    ensures Split(seg + below, '/') == [seg] + Split(below, '/')[1..]
  {
    if below == "" {
      assert seg + below == seg;
      FindInConcat(seg, "", '/');
    } else {
      assert below == "" + "/" + below[1..];
      SplitCons("", below[1..], '/');
      assert seg + below == seg + "/" + below[1..];
      SplitCons(seg, below[1..], '/');
    }
  }

  lemma TruncateIsPop(stack: seq<string>)
    requires stack != [] && FreeOf(stack, '/')
    ensures TruncateLastSegment(Join(stack, '/')) == Join(Pop(stack), '/')
  {
    var last := stack[|stack| - 1];
    assert last in stack;
    if |stack| > 1 {
      var front := stack[..|stack| - 1];
      assert stack == front + [last];
      JoinSnoc(front, last, '/');
      TruncateAfter(Join(front, '/'), last);
    } else {
      assert Join(stack, '/') == last;
    }
  }

  lemma PopKeeps(stack: seq<string>)
    requires FreeOf(stack, '/') && NoDot(stack)
    ensures FreeOf(Pop(stack), '/') && NoDot(Pop(stack))
  {
  }

  lemma TruncateAfter(front: string, last: string)
    requires '/' !in last
    ensures TruncateLastSegment(front + "/" + last) == front
  {
    var s := front + "/" + last;
    assert s[|front|] == '/';
    assert forall k :: |front| < k < |s| ==> s[k] == last[k - |front| - 1];
    assert LastSlash(s) == |front|;
    assert s[..|front|] == front;
  }

  method RemoveDotSegments(input: string) returns (out: string)
    ensures out == Reference(input)
    ensures NoDot(Split(out, '/'))
  {
    out := "";
    var rest := input;
    ghost var stack, goal := [""], Resolve(Split(input, '/'));
    Begin(input);
    while |rest| > 0
      invariant FreeOf(stack, '/') && stack != [] && NoDot(stack)
      invariant out == Join(stack, '/')
      invariant !Absolute(rest) ==> stack == [""]
      invariant Pending(rest, stack) == goal
      decreases |rest|
    {
      ghost var was := rest;
      if HasPrefix("../", rest) {
        rest := rest[3..];
        RelativeDot(was, rest, "..");
      } else if HasPrefix("./", rest) {
        rest := rest[2..];
        RelativeDot(was, rest, ".");
      } else if HasPrefix("/./", rest) {
        rest := "/" + rest[3..];
        AbsoluteDot(was, rest, ".", stack);
      } else if rest == "/." {
        rest := "/";
        RootOnly(stack);
        LastDot(".", stack);
      } else if HasPrefix("/../", rest) {
        rest := "/" + rest[4..];
        AbsoluteDot(was, rest, "..", stack);
        TruncateIsPop(stack);
        PopKeeps(stack);
        stack := Pop(stack);
        out := TruncateLastSegment(out);
      } else if rest == "/.." {
        rest := "/";
        LastDot("..", stack);
        TruncateIsPop(stack);
        PopKeeps(stack);
        stack := Pop(stack);
        out := TruncateLastSegment(out);
        RootOnly(stack);
      } else if rest == "." || rest == ".." {
        OnlyDot(rest);
        rest := "";
      } else {
        var end := 1 + Find(rest[1..], '/');
        Keep(rest, stack);
        stack := Kept(rest, stack);
        out := out + rest[..end];
        rest := rest[end..];
      }
    }
    Finished(stack);
  }

  lemma OnlyDot(dot: string)
    requires IsDot(dot)
    ensures Pending(dot, [""]) == Pending("", [""])
  {
    FindInConcat(dot, "", '/');
    assert dot + "" == dot;
  }

  lemma Finished(stack: seq<string>)
    requires FreeOf(stack, '/') && stack != []
    ensures Pending("", stack) == stack
    ensures Split(Join(stack, '/'), '/') == stack
  {
    SplitJoin(stack, '/');
  }

  lemma RootOnly(stack: seq<string>)
    ensures Pending("/", stack) == stack + [""]
  {
    SplitSegment("", "/");
    assert Split("/", '/') == ["", ""] by {
      assert "/" == "" + "/" + "";
      SplitCons("", "", '/');
    }
    assert Split("/", '/')[1..] == [""];
    WalkPlain([""], stack);
  }

  lemma LastDot(dot: string, stack: seq<string>)
    requires IsDot(dot)
    ensures Pending("/" + dot, stack) == (if dot == "." then stack else Pop(stack)) + [""]
  {
    assert "/" + dot == "" + "/" + dot;
    SplitCons("", dot, '/');
    FindInConcat(dot, "", '/');
    assert dot + "" == dot;
    assert Split("/" + dot, '/')[1..] == [dot];
  }

  lemma Begin(input: string)
    ensures Pending(input, [""]) == Resolve(Split(input, '/'))
  {
    if Absolute(input) && input != "" {
      assert Split(input, '/')[0] == "";
    }
  }

  /** A dot segment at the start of a relative rest is dropped. */
  lemma RelativeDot(was: string, rest: string, dot: string)
    requires IsDot(dot) && was == dot + "/" + rest
    ensures Pending(rest, [""]) == Pending(was, [""])
  {
    assert was[0] == '.';
    SplitCons(dot, rest, '/');
    assert Split(was, '/')[1..] == Split(rest, '/');
    Begin(rest);
  }

  /** A dot segment followed by another one leaves the stack alone or pops it. */
  lemma AbsoluteDot(was: string, rest: string, dot: string, stack: seq<string>)
    requires IsDot(dot) && rest != "" && rest[0] == '/' && was == "/" + dot + rest
    ensures Pending(was, stack) == Pending(rest, if dot == "." then stack else Pop(stack))
  {
    var below := rest[1..];
    assert was == "" + "/" + (dot + "/" + below);
    SplitCons("", dot + "/" + below, '/');
    SplitCons(dot, below, '/');
    assert rest == "" + "/" + below;
    SplitCons("", below, '/');
    assert Split(was, '/')[1..] == [dot] + Split(below, '/');
    assert Split(rest, '/')[1..] == Split(below, '/');
    assert ([dot] + Split(below, '/'))[1..] == Split(below, '/');
  }

  function Kept(rest: string, stack: seq<string>): seq<string>
    requires rest != ""
  {
    var end := SegmentEnd(rest);
    if Absolute(rest) then stack + [rest[1..end]] else [rest[..end]]
  }

  /** Any other first segment moves to the output. */
  lemma Keep(rest: string, stack: seq<string>)
    requires rest != "" && stack != [] && FreeOf(stack, '/') && NoDot(stack)
    requires !Absolute(rest) ==> stack == [""]
    requires !HasPrefix("../", rest) && !HasPrefix("./", rest) && rest != "." && rest != ".."
    requires !HasPrefix("/./", rest) && rest != "/." && !HasPrefix("/../", rest) && rest != "/.."
    ensures FreeOf(Kept(rest, stack), '/') && NoDot(Kept(rest, stack))
    ensures Join(Kept(rest, stack), '/') == Join(stack, '/') + rest[..SegmentEnd(rest)]
    ensures Pending(rest[SegmentEnd(rest)..], Kept(rest, stack)) == Pending(rest, stack)
  {
    var end := SegmentEnd(rest);
    if Absolute(rest) {
      assert rest[..end] == "/" + rest[1..end];
      assert rest == "/" + rest[1..end] + rest[end..];
      KeepBelow(rest[1..end], rest[end..], stack);
    } else {
      assert rest[..end] == [rest[0]] + rest[1..end];
      assert rest == rest[..end] + rest[end..];
      KeepFirst(rest[..end], rest[end..]);
    }
  }

  lemma KeepBelow(seg: string, below: string, stack: seq<string>)
    requires '/' !in seg && Absolute(below) && stack != []
    requires var rest := "/" + seg + below;
             !HasPrefix("/./", rest) && rest != "/." && !HasPrefix("/../", rest) && rest != "/.."
    ensures !IsDot(seg)
    ensures Join(stack + [seg], '/') == Join(stack, '/') + ("/" + seg)
    ensures Pending(below, stack + [seg]) == Pending("/" + seg + below, stack)
  {
    KeptNoDot(seg, below);
    JoinSnoc(stack, seg, '/');
    assert Join(stack, '/') + ("/" + seg) == Join(stack, '/') + "/" + seg;
    assert "/" + seg + below == "/" + (seg + below);
    SplitRooted(seg + below);
    SplitSegment(seg, below);
    WalkKeeps(seg, Split(below, '/')[1..], stack);
  }

  lemma WalkKeeps(seg: string, segs: seq<string>, stack: seq<string>)
    requires !IsDot(seg)
    ensures Walk([seg] + segs, stack) == Walk(segs, stack + [seg])
    ensures Resolve([seg] + segs) == Walk(segs, [seg])
  {
    assert ([seg] + segs)[1..] == segs;
  }

  lemma KeptNoDot(seg: string, below: string)
    requires Absolute(below)
    requires var rest := "/" + seg + below;
             !HasPrefix("/./", rest) && rest != "/." && !HasPrefix("/../", rest) && rest != "/.."
    ensures !IsDot(seg)
  {
    var rest := "/" + seg + below;
    assert below != "" ==> rest[..|seg| + 2] == "/" + seg + "/";
    assert below == "" ==> rest == "/" + seg;
  }

  lemma KeepFirst(seg: string, below: string)
    requires '/' !in seg && seg != "" && Absolute(below)
    requires var rest := seg + below;
             !HasPrefix("../", rest) && !HasPrefix("./", rest) && rest != "." && rest != ".."
    ensures !IsDot(seg) && Pending(below, [seg]) == Pending(seg + below, [""])
  {
    var rest := seg + below;
    assert below != "" ==> rest[..|seg| + 1] == seg + "/";
    assert below == "" ==> rest == seg;
    assert rest[0] == seg[0];
    SplitSegment(seg, below);
    WalkKeeps(seg, Split(below, '/')[1..], [""]);
  }

  // ---- what the result is like ----

  /** A path without dot segments is its own reference result. */
  lemma {:induction false} WalkPlain(segs: seq<string>, stack: seq<string>)
    requires NoDot(segs)
    ensures Walk(segs, stack) == stack + segs
  {
    if segs == [] {
      assert stack + segs == stack;
    } else {
      WalkPlain(segs[1..], stack + [segs[0]]);
      assert stack + [segs[0]] + segs[1..] == stack + segs;
    }
  }

  lemma PlainFixed(path: string)
    requires NoDot(Split(path, '/'))
    ensures Reference(path) == path
  {
    var segs := Split(path, '/');
    WalkPlain(segs[1..], [segs[0]]);
    assert [segs[0]] + segs[1..] == segs;
    JoinSplit(path, '/');
  }

  lemma {:induction false} WalkClean(segs: seq<string>, stack: seq<string>)
    requires NoDot(stack) && FreeOf(stack, '/') && FreeOf(segs, '/')
    ensures NoDot(Walk(segs, stack)) && FreeOf(Walk(segs, stack), '/')
    ensures stack != [] ==> Walk(segs, stack) != []
  {
    if segs != [] {
      if segs[0] == "." {
        WalkClean(segs[1..], stack);
      } else if segs[0] == ".." {
        WalkClean(segs[1..], Pop(stack));
      } else {
        WalkClean(segs[1..], stack + [segs[0]]);
      }
    }
  }

  lemma {:induction false} ResolveClean(segs: seq<string>)
    requires FreeOf(segs, '/')
    ensures NoDot(Resolve(segs)) && FreeOf(Resolve(segs), '/') && Resolve(segs) != []
  {
    if segs != [] {
      if !IsDot(segs[0]) {
        WalkClean(segs[1..], [segs[0]]);
      } else {
        ResolveClean(segs[1..]);
      }
    }
  }

  /** No segment of the result is a dot segment, and removing dot segments again changes nothing. */
  lemma ReferenceClean(path: string)
    ensures NoDot(Split(Reference(path), '/'))
    ensures Reference(Reference(path)) == Reference(path)
  {
    var segs := Resolve(Split(path, '/'));
    ResolveClean(Split(path, '/'));
    SplitJoin(segs, '/');
    PlainFixed(Reference(path));
  }

  // ---- a path with a dot segment gets strictly shorter ----

  function Weight(segs: seq<string>): nat
  {
    if segs == [] then 0 else |segs[0]| + 1 + Weight(segs[1..])
  }

  lemma {:induction false} JoinWeight(segs: seq<string>)
    requires segs != []
    ensures |Join(segs, '/')| == Weight(segs) - 1
  {
    if |segs| > 1 {
      JoinWeight(segs[1..]);
    }
  }

  lemma {:induction false} WeightSnoc(segs: seq<string>, last: string)
    ensures Weight(segs + [last]) == Weight(segs) + |last| + 1
  {
    if segs == [] {
      assert segs + [last] == [last];
    } else {
      assert (segs + [last])[1..] == segs[1..] + [last];
      WeightSnoc(segs[1..], last);
    }
  }

  lemma PopLighter(stack: seq<string>)
    requires stack != []
    ensures Weight(Pop(stack)) <= Weight(stack)
  {
    if |stack| > 1 {
      WeightSnoc(stack[..|stack| - 1], stack[|stack| - 1]);
      assert stack == stack[..|stack| - 1] + [stack[|stack| - 1]];
    }
  }

  lemma {:induction false} WalkLighter(segs: seq<string>, stack: seq<string>)
    requires stack != []
    ensures Weight(Walk(segs, stack)) <= Weight(stack) + Weight(segs)
    ensures !NoDot(segs) ==> Weight(Walk(segs, stack)) < Weight(stack) + Weight(segs)
  {
    if segs != [] {
      assert !NoDot(segs) && !IsDot(segs[0]) ==> !NoDot(segs[1..]) by {
        if i :| 0 < i < |segs| && IsDot(segs[i]) {
          assert IsDot(segs[1..][i - 1]);
        }
      }
      PopLighter(stack);
      if segs[0] == "." {
        WeightSnoc(stack, "");
        WalkLighter(segs[1..], stack);
      } else if segs[0] == ".." {
        WeightSnoc(Pop(stack), "");
        WalkLighter(segs[1..], Pop(stack));
      } else {
        WeightSnoc(stack, segs[0]);
        WalkLighter(segs[1..], stack + [segs[0]]);
      }
    }
  }

  lemma {:induction false} ResolveLighter(segs: seq<string>)
    requires segs != []
    ensures Weight(Resolve(segs)) <= Weight(segs)
    ensures !NoDot(segs) ==> Weight(Resolve(segs)) < Weight(segs)
  {
    if !IsDot(segs[0]) {
      WalkLighter(segs[1..], [segs[0]]);
      if i :| 0 < i < |segs| && IsDot(segs[i]) {
        assert IsDot(segs[1..][i - 1]);
      }
    } else if |segs| > 1 {
      ResolveLighter(segs[1..]);
    }
  }

  lemma DotShortens(path: string)
    requires !NoDot(Split(path, '/'))
    ensures |Reference(path)| < |path|
  {
    var segs := Split(path, '/');
    ResolveLighter(segs);
    ResolveClean(segs);
    JoinWeight(segs);
    JoinWeight(Resolve(segs));
    JoinSplit(path, '/');
  }

  // ---- what removal does to each dot segment ----

  lemma SplitOne(seg: string)
    requires '/' !in seg
    ensures Split(seg, '/') == [seg]
  {
    FindInConcat(seg, "", '/');
    assert seg + "" == seg;
  }

  lemma {:induction false} SplitConcat(x: string, y: string)
    ensures Split(x + "/" + y, '/') == Split(x, '/') + Split(y, '/')
    decreases |x|
  {
    hide Split;
    var i := Find(x, '/');
    hide Find;
    if i == |x| {
      assert x[..i] == x;
      SplitOne(x);
      SplitCons(x, y, '/');
    } else {
      var head, tail := x[..i], x[i + 1..];
      assert x == head + "/" + tail;
      SplitCons(head, tail, '/');
      SplitConcat(tail, y);
      SplitCons(head, tail + "/" + y, '/');
      assert x + "/" + y == head + "/" + (tail + "/" + y);
    }
  }

  /** Rests of a path that do the same to every stack do the same after every beginning. */
  lemma {:induction false} WalkSame(a: seq<string>, b: seq<string>, c: seq<string>, stack: seq<string>)
    requires b != [] && c != [] && stack != []
    requires forall st: seq<string> | st != [] :: Walk(b, st) == Walk(c, st)
    ensures Walk(a + b, stack) == Walk(a + c, stack)
  {
    if a == [] {
      assert a + b == b && a + c == c;
    } else {
      assert (a + b)[1..] == a[1..] + b && (a + c)[1..] == a[1..] + c;
      WalkSame(a[1..], b, c, if a[0] == "." then stack else if a[0] == ".." then Pop(stack) else stack + [a[0]]);
    }
  }

  lemma {:induction false} ResolveSame(a: seq<string>, b: seq<string>, c: seq<string>)
    requires b != [] && c != []
    requires forall st: seq<string> | st != [] :: Walk(b, st) == Walk(c, st)
    requires (exists i :: 0 <= i < |a| && !IsDot(a[i])) || Resolve(b) == Resolve(c)
    ensures Resolve(a + b) == Resolve(a + c)
  {
    if a == [] {
      assert a + b == b && a + c == c;
    } else {
      assert (a + b)[1..] == a[1..] + b && (a + c)[1..] == a[1..] + c;
      if IsDot(a[0]) {
        if i :| 0 <= i < |a| && !IsDot(a[i]) {
          assert !IsDot(a[1..][i - 1]);
        }
        ResolveSame(a[1..], b, c);
      } else {
        WalkSame(a[1..], b, c, [a[0]]);
      }
    }
  }

  lemma DotSegments(a: seq<string>, ys: seq<string>)
    requires ys != []
    ensures Resolve(a + ["."] + ys) == Resolve(a + ys)
    ensures Resolve(a + ["."]) == Resolve(a + [""])
    ensures Resolve(["."] + ys) == Resolve(ys)
  {
    assert (["."] + ys)[1..] == ys && a + ["."] + ys == a + (["."] + ys);
    ResolveSame(a, ["."] + ys, ys);
    forall st: seq<string> | st != [] ensures Walk(["."], st) == Walk([""], st) {
      WalkPlain([""], st);
    }
    ResolveSame(a, ["."], [""]);
  }

  lemma PopPushed(stack: seq<string>, seg: string)
    requires stack != []
    ensures Pop(stack + [seg]) == stack
  {
  }

  lemma TakenSegments(a: seq<string>, seg: string, ys: seq<string>)
    requires ys != [] && !IsDot(seg) && exists i :: 0 <= i < |a| && !IsDot(a[i])
    ensures Resolve(a + [seg] + [".."] + ys) == Resolve(a + ys)
    ensures Resolve(a + [seg] + [".."]) == Resolve(a + [""])
  {
    var b, c := [seg] + ([".."] + ys), [seg] + [".."];
    assert a + [seg] + [".."] + ys == a + b && a + [seg] + [".."] == a + c;
    assert b[1..] == [".."] + ys && ([".."] + ys)[1..] == ys && c[1..] == [".."];
    forall st: seq<string> | st != [] ensures Walk(b, st) == Walk(ys, st) && Walk(c, st) == Walk([""], st) {
      PopPushed(st, seg);
      WalkPlain([""], st);
    }
    ResolveSame(a, b, ys);
    ResolveSame(a, c, [""]);
  }

  lemma FirstSegments(seg: string, ys: seq<string>)
    requires ys != [] && !IsDot(seg)
    ensures Resolve([seg] + [".."] + ys) == Resolve([""] + ys)
    ensures Resolve([seg] + [".."]) == Resolve([""] + [""])
    ensures Resolve([".."] + ys) == Resolve(ys)
    ensures Resolve([".."]) == Resolve([""])
  {
    var b, c := [seg] + [".."] + ys, [seg] + [".."];
    assert b[1..] == [".."] + ys && ([".."] + ys)[1..] == ys && c[1..] == [".."];
    assert ([""] + ys)[1..] == ys && ([""] + [""])[1..] == [""];
    WalkPlain([""], [""]);
    WalkPlain([], [""]);
  }

  /** A single dot goes, wherever it is; at the end it leaves a slash. */
  lemma DotGoes(x: string, y: string)
    ensures Reference(x + "/" + "." + "/" + y) == Reference(x + "/" + y)
    ensures Reference(x + "/" + ".") == Reference(x + "/" + "")
    ensures Reference("." + "/" + y) == Reference(y)
    ensures Reference(".") == Reference("")
  {
    SplitOne(".");
    SplitOne("");
    hide Split, Resolve, Walk, Join;
    DotSegments(Split(x, '/'), Split(y, '/'));
    DotSegments([], Split(y, '/'));
    assert [] + ["."] == ["."] && [] + [""] == [""];
    SplitConcat(x + "/" + ".", y);
    SplitConcat(x, y);
    SplitConcat(x, ".");
    SplitConcat(x, "");
    SplitConcat(".", y);
  }

  /** Two dots take the segment before them with them. */
  lemma DotDotTakesOne(x: string, seg: string, y: string)
    requires '/' !in seg && !IsDot(seg) && exists i :: 0 <= i < |Split(x, '/')| && !IsDot(Split(x, '/')[i])
    ensures Reference(x + "/" + seg + "/" + ".." + "/" + y) == Reference(x + "/" + y)
    ensures Reference(x + "/" + seg + "/" + "..") == Reference(x + "/" + "")
  {
    SplitOne(seg);
    SplitOne("..");
    SplitOne("");
    hide Split, Resolve, Walk, Join;
    TakenSegments(Split(x, '/'), seg, Split(y, '/'));
    SplitConcat(x + "/" + seg + "/" + "..", y);
    SplitConcat(x + "/" + seg, "..");
    SplitConcat(x, seg);
    SplitConcat(x, y);
    SplitConcat(x, "");
  }

  /** Taking the first segment, or nothing at the root, leaves the root; leading ones of a relative path just go. */
  lemma FirstDotDot(seg: string, y: string)
    requires '/' !in seg && !IsDot(seg)
    ensures Reference(seg + "/" + ".." + "/" + y) == Reference("" + "/" + y)
    ensures Reference(seg + "/" + "..") == Reference("" + "/" + "")
    ensures Reference(".." + "/" + y) == Reference(y)
    ensures Reference("..") == Reference("")
  {
    SplitOne(seg);
    SplitOne("..");
    SplitOne("");
    hide Split, Resolve, Walk, Join;
    FirstSegments(seg, Split(y, '/'));
    SplitConcat(seg + "/" + "..", y);
    SplitConcat(seg, "..");
    SplitConcat("..", y);
    SplitConcat("", y);
    SplitConcat("", "");
  }

  /** Where there is no dot segment nothing changes. */
  lemma NoDotNoChange(path: string)
    requires forall i :: 0 <= i < |Split(path, '/')| ==> Split(path, '/')[i] != "." && Split(path, '/')[i] != ".."
    ensures Reference(path) == path
  {
    PlainFixed(path);
  }
}
