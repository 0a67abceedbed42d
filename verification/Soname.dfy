/** The unversioned link name of internal/discover/soname.go. */
module Soname {
  import opened Strings
  import opened Paths

  /** `filepath.Ext`: from the last dot of the last path element. */
  function Ext(p: string): string {
    if p == "" || p[|p| - 1] == '/' then ""
    else if p[|p| - 1] == '.' then "."
    else
      var ext := Ext(p[..|p| - 1]);
      if ext == "" then "" else ext + [p[|p| - 1]]
  }

  lemma {:induction false} ExtIsSuffix(p: string)
    ensures HasSuffix(p, Ext(p))
  {
    if p != "" && p[|p| - 1] != '/' && p[|p| - 1] != '.' {
      ExtIsSuffix(p[..|p| - 1]);
    }
  }

  function GetSoLink(soname: string): string
    decreases |soname|
  {
    var ext := Ext(soname);
    if ext == "" then ""
    else if ext == ".so" then soname
    else
      ExtIsSuffix(soname);
      GetSoLink(TrimSuffix(soname, ext))
  }

  lemma {:induction false} ExtOfName(s: string)
    requires '/' !in s
    ensures var parts := Split(s, '.');
      Ext(s) == if |parts| == 1 then "" else "." + Last(parts)
  {
    if s != "" {
      var front, c := s[..|s| - 1], s[|s| - 1];
      assert s == front + [c];
      assert forall x :: x in front ==> x in s;
      if c == '.' {
        SplitConcat(front, "", '.');
        assert s == front + ['.'] + "";
      } else {
        ExtOfName(front);
        SplitPush(front, c);
      }
    }
  }

  lemma {:induction false} SplitPush(s: string, c: char)
    requires c != '.'
    ensures var parts := Split(s, '.');
      Split(s + [c], '.') == parts[..|parts| - 1] + [Last(parts) + [c]]
  {
    if s == "" {
      SplitHead([c], '.');
      assert [c] + "" == "" + [c] == [c];
    } else {
      var t := s + [c];
      assert t[0] == s[0] && t[1..] == s[1..] + [c];
      SplitPush(s[1..], c);
      SplitHead(s, '.');
      SplitHead(t, '.');
      var rest := Split(s[1..], '.');
      assert [s[0]] + (rest[0] + [c]) == [s[0]] + rest[0] + [c];
    }
  }

  /** Dropping the extension drops the last dot-separated part. */
  lemma TrimExt(s: string)
    requires '/' !in s && |Split(s, '.')| > 1
    ensures var parts := Split(s, '.');
      && TrimSuffix(s, Ext(s)) == Join(parts[..|parts| - 1], '.')
      && Split(TrimSuffix(s, Ext(s)), '.') == parts[..|parts| - 1]
  {
    hide Split, Join;
    var parts := Split(s, '.');
    var front := parts[..|parts| - 1];
    assert parts == front + [Last(parts)];
    ExtOfName(s);
    JoinOfSplit(s, '.');
    JoinConcat(front, [Last(parts)], '.');
    JoinOne(Last(parts));
    assert s == Join(front, '.') + ("." + Last(parts));
    SplitOfJoin(front, '.');
  }

  lemma JoinOne(s: string)
    ensures Join([s], '.') == s
  {
  }

  /** How many leading dot-separated parts the link keeps: up to the last "so"
      that is not the whole name; 0 if there is none. */
  function KeptParts(parts: seq<string>): (k: nat)
    ensures k <= |parts|
    ensures k == 0 ==> forall i :: 1 <= i < |parts| ==> parts[i] != "so"
    ensures k > 0 ==> k > 1 && parts[k - 1] == "so" && forall i :: k <= i < |parts| ==> parts[i] != "so"
  {
    if |parts| <= 1 then 0
    else if Last(parts) == "so" then |parts|
    else KeptParts(parts[..|parts| - 1])
  }

  lemma TrimmedChars(s: string, suffix: string)
    requires HasSuffix(s, suffix) && suffix != ""
    ensures |TrimSuffix(s, suffix)| < |s| && forall c :: c in TrimSuffix(s, suffix) ==> c in s
  {
  }

  /** The link name is the name cut after its last dot-separated "so", and empty
      if it has none. */
  lemma {:induction false} SoLinkCutsAfterSo(soname: string)
    requires '/' !in soname
    ensures var parts := Split(soname, '.');
      GetSoLink(soname) == if KeptParts(parts) == 0 then "" else Join(parts[..KeptParts(parts)], '.')
    decreases |soname|
  {
    hide Split, Join, Ext, TrimSuffix, HasSuffix;
    var parts := Split(soname, '.');
    ExtOfName(soname);
    if |parts| > 1 {
      JoinOfSplit(soname, '.');
      if Last(parts) == "so" {
        assert parts[..|parts|] == parts;
      } else {
        ExtIsSuffix(soname);
        TrimExt(soname);
        var trimmed := TrimSuffix(soname, Ext(soname));
        TrimmedChars(soname, Ext(soname));
        assert Ext(soname) != ".so" by {
          assert Ext(soname)[1..] == Last(parts);
        }
        SoLinkCutsAfterSo(trimmed);
        var front := parts[..|parts| - 1];
        assert front[..KeptParts(front)] == parts[..KeptParts(front)];
      }
    }
  }
}
