/** `cn` of lib/classnames.ts: the truthy class names, joined by single
    spaces. */
module ClassNames {
  /** One argument of `cn`: a string, `false`, `null` or `undefined`. */
  datatype ClassArg = Str(s: string) | False | Null | Undefined

  /** `Boolean(arg)`: only a non-empty string is kept. */
  predicate Kept(arg: ClassArg) {
    arg.Str? && arg.s != ""
  }

  /** `classes.filter(Boolean)`, as strings. */
  function KeptStrings(args: seq<ClassArg>): (r: seq<string>)
    ensures |r| <= |args|
    ensures forall i :: 0 <= i < |r| ==> r[i] != ""
  {
    if args == [] then []
    else (if Kept(args[0]) then [args[0].s] else []) + KeptStrings(args[1..])
  }

  /** `.join(" ")`. */
  function Join(parts: seq<string>): string {
    if parts == [] then ""
    else if |parts| == 1 then parts[0]
    else parts[0] + " " + Join(parts[1..])
  }

  /** `cn(...classes)`. */
  function Cn(args: seq<ClassArg>): (r: string)
    ensures r == "" <==> KeptStrings(args) == []
  {
    JoinEmpty(KeptStrings(args));
    Join(KeptStrings(args))
  }

  /** A join of non-empty strings is empty exactly when there are none. */
  lemma {:induction false} JoinEmpty(parts: seq<string>)
    requires forall i :: 0 <= i < |parts| ==> parts[i] != ""
    ensures Join(parts) == "" <==> parts == []
  {
    if |parts| > 1 {
      assert |Join(parts)| >= |parts[0]| > 0;
    }
  }

  /** Joining two lists one after the other puts one space between their
      joins, unless one of them is empty. */
  lemma {:induction false} JoinAppend(a: seq<string>, b: seq<string>)
    ensures Join(a + b) ==
      if a == [] then Join(b) else if b == [] then Join(a) else Join(a) + " " + Join(b)
    decreases |a|
  {
    if a == [] {
      assert a + b == b;
    } else if b == [] {
      assert a + b == a;
    } else if |a| == 1 {
      assert (a + b)[1..] == b;
    } else {
      JoinAppend(a[1..], b);
      assert (a + b)[1..] == a[1..] + b;
    }
  }

  lemma {:induction false} KeptAppend(a: seq<ClassArg>, b: seq<ClassArg>)
    ensures KeptStrings(a + b) == KeptStrings(a) + KeptStrings(b)
    decreases |a|
  {
    if a == [] {
      assert a + b == b;
    } else {
      KeptAppend(a[1..], b);
      assert (a + b)[1..] == a[1..] + b;
    }
  }

  /** `cn(...a, ...b)` is `cn(...a)` and `cn(...b)` joined by one space, or
      whichever of them is non-empty: arguments keep their order, and
      nothing is trimmed or removed as a duplicate. */
  lemma CnAppend(a: seq<ClassArg>, b: seq<ClassArg>)
    ensures Cn(a + b) ==
      if Cn(a) == "" then Cn(b) else if Cn(b) == "" then Cn(a) else Cn(a) + " " + Cn(b)
  {
    KeptAppend(a, b);
    JoinAppend(KeptStrings(a), KeptStrings(b));
    assert Cn(a + b) == Join(KeptStrings(a) + KeptStrings(b));
    assert Cn(a) == Join(KeptStrings(a)) && Cn(b) == Join(KeptStrings(b));
  }

  /** `false`, `null`, `undefined` and "" leave the result as it was,
      wherever they stand. */
  lemma DroppedArgsIgnored(a: seq<ClassArg>, x: ClassArg, b: seq<ClassArg>)
    requires !Kept(x)
    ensures Cn(a + [x] + b) == Cn(a + b)
  {
    KeptAppend(a + [x], b);
    KeptAppend(a, [x]);
    KeptAppend(a, b);
    assert KeptStrings([x]) == [];
    assert KeptStrings(a + [x]) == KeptStrings(a);
    assert KeptStrings(a + [x] + b) == KeptStrings(a + b);
  }

  /** A single non-empty class name is returned unchanged, spaces and all. */
  lemma SingleClass(s: string)
    requires s != ""
    ensures Cn([Str(s)]) == s
  {
    assert KeptStrings([Str(s)]) == [s];
  }
}
