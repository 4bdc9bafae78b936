/**
 * `modify_filename`: the characters that are not allowed in file names on
 * common file systems are each replaced by an underscore.
 */
module Filenames {
  /** The character class `[\\\/:*?"<>|]`. */
  predicate IsReserved(c: char)
  {
    c == '\\' || c == '/' || c == ':' || c == '*' || c == '?' || c == '"' || c == '<' || c == '>' || c == '|'
  }

  function Sanitize(c: char): char
  {
    if IsReserved(c) then '_' else c
  }

  /** `re.sub(r'[\\\/:*?"<>|]', '_', filename)`. */
  function ModifyFilename(filename: string): (r: string)
    ensures |r| == |filename|
    ensures forall i :: 0 <= i < |r| ==> r[i] == Sanitize(filename[i])
    ensures forall i :: 0 <= i < |r| ==> !IsReserved(r[i])
    ensures (forall i :: 0 <= i < |filename| ==> !IsReserved(filename[i])) ==> r == filename
  {
    if filename == [] then []
    else [Sanitize(filename[0])] + ModifyFilename(filename[1..])
  }

  /** Sanitizing twice is sanitizing once. */
  lemma ModifyFilenameIdempotent(filename: string)
    ensures ModifyFilename(ModifyFilename(filename)) == ModifyFilename(filename)
  {
    var once := ModifyFilename(filename);
    assert forall i :: 0 <= i < |once| ==> ModifyFilename(once)[i] == once[i];
  }

  lemma ModifyFilenameExample()
    ensures ModifyFilename("A:B/C*D") == "A_B_C_D"
  {
  }
}
