/** The records the components exchange: the credential record, the raw
    objects a bucket listing returns, the image entries handed to the views,
    and the on-device key-value store holding the credential record.
 */
module Records {
  import opened Outcomes

  /** The four credential fields, as stored and as edited by the form. */
  datatype S3Config = S3Config(
    accessKeyId: string,
    secretAccessKey: string,
    region: string,
    bucketName: string)

  /** One entry of a listing response; each field may be absent.
      `lastModified` is a timestamp in milliseconds, `size` a byte count. */
  datatype S3Object = S3Object(
    key: Option<string>,
    lastModified: Option<int>,
    size: Option<int>)

  /** One image as shown by the gallery: its key, a signed URL, its
      modification time and its size. */
  datatype S3Image = S3Image(key: string, url: string, lastModified: int, size: int)

  /** What reading and parsing the stored text yields. An absent or empty
      entry is simply missing from the store; text that does not parse is
      `Unparseable`; the literal `null` parses to `JsonNull`; otherwise the
      text is a serialised credential record (parsing is the identity). */
  datatype Stored = Unparseable | JsonNull | Record(config: S3Config)

  /** The on-device key-value store. */
  type Store = map<string, Stored>

  /** The single key under which the credential record lives. */
  const StorageKey: string := "s3Config"
}
