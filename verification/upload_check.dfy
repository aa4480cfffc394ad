/** The decision part of `checkFile` in the core utilities: whether an
    uploaded file may be stored. Reading the file and sniffing its type
    from magic numbers are left to the caller, who passes the detected MIME
    type in (`None` when no signature was recognised). */
module UploadCheck {
  import opened Wrappers
  import opened Text
  import CoreConfig

  /** The fields of the uploaded file the check reads: its size in bytes
      and the MIME type the client declared. */
  datatype UploadedFile = UploadedFile(size: int, declaredType: string)

  const MaxFileSize: int := 20 * 1024 * 1024

  const Ok := "ok"
  const TooLarge := "Too large file"
  const InvalidFileType := "Invalid file type"
  const InvalidConfiguredFileType := "Invalid configured file type"
  const InvalidFile := "Invalid file"

  /** Types a signature cannot identify, accepted on the client's word. */
  const UnsupportedMimeTypes: seq<string> :=
    ["text/csv", "image/svg+xml", "text/plain", "application/vnd.ms-excel"]

  /** Old Office formats, which signature sniffing reports as
      `application/x-msi`. */
  const OldMsOfficeDocs: seq<string> :=
    ["application/msword", "application/vnd.ms-excel", "application/vnd.ms-powerpoint"]

  const MsiMimeType := "application/x-msi"

  /** An Office Open XML type: `application/vnd.openxmlformats-officedocument.` and the kind. */
  function OpenXmlType(kind: string): string {
    "application/" + "vnd.openxmlformats-" + "officedocument." + kind
  }

  const DefaultMimeTypes: seq<string> := [
    "image/png",
    "image/jpeg",
    "image/jpg",
    OpenXmlType("spreadsheetml.sheet"),
    OpenXmlType("wordprocessingml.document"),
    "application/pdf",
    "image/gif"
  ]

  /** Text made of lower-case letters, digits, `/`, `.` and `-` holds no comma. */
  lemma CommaFree(t: string)
    requires forall k :: 0 <= k < |t| ==> 'a' <= t[k] <= 'z' || '0' <= t[k] <= '9' || t[k] in "/.-"
    ensures ',' !in t
  {
  }

  // The pieces of the default types, shown comma-free in small groups.
  lemma ImageTypesCommaFree()
    ensures ',' !in "image/png" && ',' !in "image/jpeg" && ',' !in "image/jpg" && ',' !in "image/gif"
  {
    CommaFree("image/png");
    CommaFree("image/jpeg");
    CommaFree("image/jpg");
    CommaFree("image/gif");
  }

  lemma ApplicationPiecesCommaFree()
    ensures ',' !in "application/" && ',' !in "application/pdf" && ',' !in "officedocument."
  {
    CommaFree("application/");
    CommaFree("application/pdf");
    CommaFree("officedocument.");
  }

  lemma OpenXmlPiecesCommaFree()
    ensures ',' !in "vnd.openxmlformats-" && ',' !in "spreadsheetml.sheet"
  {
    CommaFree("vnd.openxmlformats-");
    CommaFree("spreadsheetml.sheet");
  }

  /** No default type holds a comma, so the default list is already split. */
  lemma DefaultsAreCommaFree()
    ensures forall i :: 0 <= i < |DefaultMimeTypes| ==> ',' !in DefaultMimeTypes[i]
  {
    ImageTypesCommaFree();
    ApplicationPiecesCommaFree();
    OpenXmlPiecesCommaFree();
    CommaFree("wordprocessingml.document");
  }

  /** Widget uploads are governed by their own configuration entry. */
  function ConfigCode(source: Option<string>): string {
    if source == Some("widgets") then "WIDGETS_UPLOAD_FILE_TYPES" else "UPLOAD_FILE_TYPES"
  }

  /** The allow-list: the comma-separated configured list when that entry is
      truthy, otherwise the default list. */
  function AllowedMimeTypes(configs: CoreConfig.Configs, source: Option<string>): (allowed: seq<string>)
    ensures |allowed| > 0
    ensures !(ConfigCode(source) in configs && configs[ConfigCode(source)] != "") ==>
              allowed == DefaultMimeTypes
    ensures ConfigCode(source) in configs && configs[ConfigCode(source)] != "" ==>
              Join(allowed, ',') == configs[ConfigCode(source)]
    ensures forall i :: 0 <= i < |allowed| ==> ',' !in allowed[i]
  {
    var configured := CoreConfig.GetConfig(configs, ConfigCode(source), None);
    if configured.Some? then
      JoinSplit(configured.value, ',');
      Split(configured.value, ',')
    else
      DefaultsAreCommaFree();
      DefaultMimeTypes
  }

  /** `checkFile(file, source)`: a missing file throws; otherwise the
      verdict is one of four messages, decided in this order: size first,
      then the client-declared type when no signature was found, then the
      Office exception, then the allow-list. */
  function CheckFile(file: Option<UploadedFile>, detected: Option<string>, source: Option<string>,
                     configs: CoreConfig.Configs): (r: Result<string, string>)
    ensures r.Failure? <==> file.None?
    ensures r.Failure? ==> r.error == InvalidFile
    ensures r.Success? ==> r.value in {Ok, TooLarge, InvalidFileType, InvalidConfiguredFileType}
    ensures file.Some? && file.value.size > MaxFileSize ==> r == Success(TooLarge)
    ensures file.Some? && file.value.size <= MaxFileSize && detected.None? ==>
              (r == Success(Ok) <==> file.value.declaredType in UnsupportedMimeTypes) &&
              (r != Success(Ok) ==> r == Success(InvalidFileType))
    ensures file.Some? && file.value.size <= MaxFileSize && detected.Some? ==>
              (r == Success(Ok) <==>
                 (detected.value == MsiMimeType && file.value.declaredType in OldMsOfficeDocs) ||
                 detected.value in AllowedMimeTypes(configs, source)) &&
              (r != Success(Ok) ==> r == Success(InvalidConfiguredFileType))
  {
    if file.None? then Failure(InvalidFile)
    else if file.value.size > MaxFileSize then Success(TooLarge)
    else if detected.None? && file.value.declaredType in UnsupportedMimeTypes then Success(Ok)
    else if detected.None? then Success(InvalidFileType)
    else if detected.value == MsiMimeType && file.value.declaredType in OldMsOfficeDocs then Success(Ok)
    else if detected.value !in AllowedMimeTypes(configs, source) then Success(InvalidConfiguredFileType)
    else Success(Ok)
  }

  /** Accepted files are never over the size limit. */
  lemma AcceptedFilesAreSmall(file: Option<UploadedFile>, detected: Option<string>, source: Option<string>,
                              configs: CoreConfig.Configs)
    requires CheckFile(file, detected, source, configs) == Success(Ok)
    ensures file.Some? && file.value.size <= MaxFileSize
  {
  }

  /** Configuring the list `types` (comma-free entries, joined with commas)
      accepts a recognised, non-Office file exactly when its type is one of
      `types`. */
  lemma ConfiguredListDecides(file: UploadedFile, mime: string, source: Option<string>,
                              configs: CoreConfig.Configs, types: seq<string>)
    requires |types| > 0 && forall i :: 0 <= i < |types| ==> ',' !in types[i]
    requires ConfigCode(source) in configs && configs[ConfigCode(source)] == Join(types, ',')
    requires Join(types, ',') != ""
    requires file.size <= MaxFileSize && mime != MsiMimeType
    ensures CheckFile(Some(file), Some(mime), source, configs) == Success(Ok) <==> mime in types
  {
    SplitJoin(types, ',');
  }
}
