/** The inspection of a resource folder (scan.js:90-103): whether it holds an escrow-encrypted
    package (a ".fxap" file) and which resource script it has. */
module Inspection {
  import opened Wrappers
  import opened Text

  const ResourceLua := "__resource.lua"
  const FxManifest := "fxmanifest.lua"

  datatype Inspection = Inspection(escrow: bool, scriptFile: Option<string>)

  /** `f.toLowerCase().endsWith('.fxap')`. */
  predicate IsFxapName(f: string)
  {
    EndsWith(ToLower(f), ".fxap")
  }

  /** `files.some(f => f.toLowerCase().endsWith('.fxap'))`. */
  function HasFxap(names: seq<string>): (r: bool)
    ensures r <==> exists i :: 0 <= i < |names| && IsFxapName(names[i])
  {
    if names == [] then false
    else IsFxapName(names[0]) || HasFxap(names[1..])
  }

  /** The script `checkResourceFiles` reports for the entry names `files`: "__resource.lua"
      when present, otherwise "fxmanifest.lua" when present, otherwise none. */
  function ScriptFile(files: seq<string>): (r: Option<string>)
    ensures r.Some? <==> ResourceLua in files || FxManifest in files
    ensures ResourceLua in files ==> r == Some(ResourceLua)
    ensures ResourceLua !in files && FxManifest in files ==> r == Some(FxManifest)
  {
    if ResourceLua in files then Some(ResourceLua)
    else if FxManifest in files then Some(FxManifest)
    else None
  }

  /** `checkResourceFiles` over what `readdir` gives for the folder: its entry names, or `None`
      when it cannot be read. */
  function CheckResourceFiles(listing: Option<seq<string>>): (r: Inspection)
    ensures listing.None? ==> r == Inspection(false, None)
    ensures listing.Some? ==>
      (r.escrow <==> exists i :: 0 <= i < |listing.value| && IsFxapName(listing.value[i]))
    ensures r.scriptFile.Some? ==>
      listing.Some? && r.scriptFile.value in listing.value && (r.scriptFile == Some(ResourceLua) || r.scriptFile == Some(FxManifest))
    ensures listing.Some? && ResourceLua in listing.value ==> r.scriptFile == Some(ResourceLua)
    ensures listing.Some? && (ResourceLua in listing.value || FxManifest in listing.value) ==> r.scriptFile.Some?
  {
    match listing
    case None => Inspection(false, None)
    case Some(files) => Inspection(HasFxap(files), ScriptFile(files))
  }

  /** The escrow marker is matched ignoring letter case, the script names exactly. */
  lemma MarkerCaseButScriptExact()
    ensures CheckResourceFiles(Some(["X.FXAP", "FXManifest.lua"])) == Inspection(true, None)
  {
    var files := ["X.FXAP", "FXManifest.lua"];
    assert ToLower(files[0]) == "x.fxap" by {
      var l := ToLower(files[0]);
      assert l[0] == 'x' && l[1] == '.' && l[2] == 'f' && l[3] == 'x' && l[4] == 'a' && l[5] == 'p';
    }
    assert IsFxapName(files[0]);
    assert files[1][0] != FxManifest[0];
    assert ResourceLua !in files && FxManifest !in files;
  }
}
