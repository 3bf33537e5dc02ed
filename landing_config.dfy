/** The page configuration the landing-page builder edits: sections with free-form content,
    a theme and SEO fields. */
module LandingConfig {
  import opened Strings

  datatype SectionType = Hero | Features | About | Pricing | Testimonials | Contact | Footer

  /** The enum's string value. */
  function TypeName(t: SectionType): (r: string)
    ensures r != [] && forall i :: 0 <= i < |r| ==> IsUpperAscii(r[i])
  {
    match t
    case Hero => "HERO"
    case Features => "FEATURES"
    case About => "ABOUT"
    case Pricing => "PRICING"
    case Testimonials => "TESTIMONIALS"
    case Contact => "CONTACT"
    case Footer => "FOOTER"
  }

  /** A field of an entry in a section's `items` list. */
  datatype ItemField = Str(s: string) | Strs(list: seq<string>)

  type Item = map<string, ItemField>

  /** A value of a section's content object: text, or the `items` list. */
  datatype ContentValue = Text(text: string) | Items(items: seq<Item>)

  /** A section's content object, by property name. */
  type Content = map<string, ContentValue>

  datatype Section = Section(id: string, sectionType: SectionType, isVisible: bool, content: Content)

  datatype Mode = Light | Dark

  datatype Theme = Theme(primaryColor: string, fontFamily: string, borderRadius: string, mode: Mode)

  datatype Seo = Seo(title: string, description: string, keywords: string)

  datatype Config = Config(id: string, title: string, theme: Theme, seo: Seo, sections: seq<Section>)
}
