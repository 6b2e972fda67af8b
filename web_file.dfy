/** The browser `File` objects the application receives from an
    `<input type="file">`: a name, a declared media type (`file.type`), a
    size in bytes (`file.size`) and, for text files, what `FileReader`
    reads from it (reading itself is I/O and is not modelled). */
module WebFile {

  datatype InputFile = InputFile(name: string, mediaType: string, size: nat, contents: string)
}
